# DefaultConnection: reply framing and connection lifecycle

A Dafny model of `DefaultConnection`, the abstract base of the MongoDB Java
driver's wire connections. The class owns a closed flag. It sends
pre-encoded requests through a transport. It receives a reply in a fixed
order:

1. borrow a 36-byte buffer from a buffer pool;
2. have the transport fill it;
3. decode the reply header from it;
4. return the buffer to the pool on every path (try/finally);
5. reject an announced `messageLength` above 48,000,000;
6. only when `numberReturned > 0`, borrow and fill a body buffer of
   `messageLength - 36` bytes;
7. hand that body to the caller inside the response.

Every failure of a receive whose liveness check passed closes the
connection, and so does every I/O failure of a send. A failing liveness
check (`ensureOpen`) and a non-I/O exception from the transport during a
send leave the flag as it was. In a receive, a read I/O error is classified
as a timeout, an interruption or a generic read failure; a `MongoException`
is re-raised unchanged; any other runtime exception is wrapped as an
internal error.

Modules:

- `Protocol`: Java `int`/`long` as `int32`/`int64`, and Java's wrapping
  `int` subtraction (`Sub32`). Also the reply header record, pooled buffers
  (identified by borrow id) and the response (header plus optional body).
- `Errors`: the exceptions as tagged values. `IoKind` lists the
  `IOException` kinds the code tells apart. `MongoError` lists the
  `MongoException` subclasses. `Fault` is anything a collaborator throws.
  `ClassifyRead` is the read-failure classifier.
- `Pool`: the buffer pool as an event log (`Lent`, `Returned`). It has the
  accounting invariant `Consistent`: every id is lent once, and every
  `done` returns an outstanding buffer. The class `BufferPool` keeps that
  invariant.
- `Transport`: the three abstract primitives `ensureOpen`,
  `sendOneWayMessage` and `fillAndFlipBuffer`. They are played back from a
  script: the n-th call of each primitive has a fixed outcome. Every call
  is logged.
- `ConnectionSpec`: each operation as a function from the state before the
  call to the result and the state after it. The state is the flag, the
  pool and the transport.
- `Connection`: the class `DefaultConnection`. Each method is proved equal
  to its `ConnectionSpec` function and keeps the pool invariant.
- `ConnectionProperties`: what one call promises.
- `Lifecycle`: sequences of calls. Closed is terminal, and the pool
  invariant holds over any run.

## Model

| member | source | states |
|---|---|---|
| Protocol.Sub32 | driver/src/main/org/mongodb/impl/DefaultConnection.java:142 | the result agrees with the mathematical difference modulo 2^32, and equals it whenever the difference fits in an `int` |
| Protocol.BodyRequestSize | driver/src/main/org/mongodb/impl/DefaultConnection.java:142 | the body request is `messageLength - REPLY_HEADER_LENGTH` when that fits in an `int`, and that difference plus 2^32 when it wraps |
| Protocol.BodyRequestBounded | driver/src/main/org/mongodb/impl/DefaultConnection.java:134-142 | a length that passes the maximum check and does not wrap requests at most 48,000,000 − 36 bytes; the request is non-negative exactly when the length covers the header |
| Protocol.BodyRequestWraps | driver/src/main/org/mongodb/impl/DefaultConnection.java:134-142 | a length within 36 of `Integer.MIN_VALUE` passes the maximum check, yet its body request wraps to a size above the maximum |
| Errors.ClassifyRead | driver/src/main/org/mongodb/impl/DefaultConnection.java:107-118 | the classification is exhaustive and ordered: a timeout gives a read timeout; otherwise an interrupted I/O or a closed-by-interrupt gives an interruption; anything else gives a read failure. The cause is kept, and the address on the two socket kinds |
| Errors.TimeoutBeforeInterrupt | driver/src/main/org/mongodb/impl/DefaultConnection.java:109-113 | a socket timeout is also an interrupted I/O, yet it is classified as a timeout |
| Pool.Acquire | driver/src/main/org/mongodb/impl/DefaultConnection.java:121 | a `get` lends a buffer of the requested size under the next id and adds that id to the outstanding borrows |
| Pool.Release | driver/src/main/org/mongodb/impl/DefaultConnection.java:130 | a `done` takes back an outstanding buffer and removes it from the outstanding borrows |
| Pool.AcquireConsistent | driver/src/main/org/mongodb/impl/DefaultConnection.java:121 | lending keeps the accounting invariant, and the lent id was never lent before |
| Pool.ReleaseConsistent | driver/src/main/org/mongodb/impl/DefaultConnection.java:130 | returning an outstanding buffer keeps the accounting invariant |
| Pool.NoDoubleRelease | driver/src/main/org/mongodb/impl/DefaultConnection.java:129-131 | in a well-formed pool log, two returns never name the same borrow |
| Pool.BufferPool.Get | driver/src/main/org/mongodb/impl/DefaultConnection.java:121 | the pool object lends exactly as `Acquire` and keeps its invariant |
| Pool.BufferPool.Done | driver/src/main/org/mongodb/impl/DefaultConnection.java:130 | the pool object takes back only an outstanding buffer, exactly as `Release`, and keeps its invariant |
| Transport.EnsureOpenStep | driver/src/main/org/mongodb/impl/DefaultConnection.java:101 | the liveness check logs exactly one call and nothing else |
| Transport.SendStep | driver/src/main/org/mongodb/impl/DefaultConnection.java:103 | a one-way send logs exactly the message sent |
| Transport.FillStep | driver/src/main/org/mongodb/impl/DefaultConnection.java:105 | a fill succeeds exactly when the script delivers bytes, and then yields the same borrow with the same size; either way one fill of that buffer is logged |
| Transport.ScriptedTransport.FillAndFlipBuffer | driver/src/main/org/mongodb/impl/DefaultConnection.java:105 | the transport object fills exactly as `FillStep` |
| ConnectionSpec.Close | driver/src/main/org/mongodb/impl/DefaultConnection.java:55-57 | closing sets the flag and changes neither the pool nor the transport |
| ConnectionSpec.Check | driver/src/main/org/mongodb/impl/DefaultConnection.java:151-153 | `check()` is one `ensureOpen()` call: it touches neither the flag nor the pool |
| Connection.DefaultConnection.constructor | driver/src/main/org/mongodb/impl/DefaultConnection.java:49-52 | a new connection is open and holds the given address and pool |
| Connection.DefaultConnection.Close | driver/src/main/org/mongodb/impl/DefaultConnection.java:55-57 | `close()` sets the flag and nothing else |
| Connection.DefaultConnection.IsClosed | driver/src/main/org/mongodb/impl/DefaultConnection.java:59-62 | `isClosed()` reads the flag and changes nothing |
| Connection.DefaultConnection.GetServerAddress | driver/src/main/org/mongodb/impl/DefaultConnection.java:64-66 | the address is the one the connection was built with |
| Connection.DefaultConnection.Check | driver/src/main/org/mongodb/impl/DefaultConnection.java:151-153 | follows `ConnectionSpec.Check` |
| Connection.DefaultConnection.SendMessage | driver/src/main/org/mongodb/impl/DefaultConnection.java:68-76 | follows `ConnectionSpec.SendMessage`; its properties are in `SendClosesOnlyOnIoFailure` |
| Connection.DefaultConnection.SendAndReceiveMessage | driver/src/main/org/mongodb/impl/DefaultConnection.java:78-82 | follows `ConnectionSpec.SendAndReceive` and keeps the pool invariant |
| Connection.DefaultConnection.ReceiveMessage | driver/src/main/org/mongodb/impl/DefaultConnection.java:84-99 | follows `ConnectionSpec.Receive` and keeps the pool invariant |
| Connection.DefaultConnection.TranslateReadException | driver/src/main/org/mongodb/impl/DefaultConnection.java:107-118 | closes the connection, then yields `ClassifyRead` of the I/O error |
| Connection.DefaultConnection.ReceiveFrame | driver/src/main/org/mongodb/impl/DefaultConnection.java:120-149 | the framing steps, with the header buffer returned in a `finally`; follows `ConnectionSpec.ReceiveFrame` and keeps the pool invariant |
| ConnectionProperties.CloseIdempotent | driver/src/main/org/mongodb/impl/DefaultConnection.java:55-57 | closing twice is closing once, and a closed connection reports closed |
| ConnectionProperties.NotOpenTouchesNothing | driver/src/main/org/mongodb/impl/DefaultConnection.java:151-153 | when `ensureOpen` fails, send, receive and send-and-receive raise "not open". They leave the flag and the pool unchanged and make no transport call beyond the check |
| ConnectionProperties.SendClosesOnlyOnIoFailure | driver/src/main/org/mongodb/impl/DefaultConnection.java:68-76 | a send never touches the pool and makes one send call. It succeeds exactly when the transport does. An I/O error becomes a write failure with the server address; any other exception goes up unchanged. The connection ends closed exactly when it was closed already or the send hit an I/O error |
| ConnectionProperties.HeaderBufferReturnedOnce | driver/src/main/org/mongodb/impl/DefaultConnection.java:121-131 | reading the header lends one buffer of `REPLY_HEADER_LENGTH` and returns it exactly once, whether the fill or the decode fails or not; the pool is left as before apart from that |
| ConnectionProperties.OversizedRequestsNoBody | driver/src/main/org/mongodb/impl/DefaultConnection.java:134-137 | an announced length above 48,000,000 raises the internal "too large" error. The pool log shows only the header loan and its return, so no second `get` is made. The connection ends closed |
| ConnectionProperties.SuccessfulReceive | driver/src/main/org/mongodb/impl/DefaultConnection.java:139-148 | on success the response holds the header the decoder made of the first fill's bytes. A body is present exactly when `numberReturned > 0`. The body is the second loan, of size `messageLength − 36`, holding the second fill's bytes, and stays outstanding. The flag is unchanged |
| ConnectionProperties.BodyFillFailureKeepsBodyBuffer | driver/src/main/org/mongodb/impl/DefaultConnection.java:141-145 | when the body fill fails, the receive fails and closes the connection. The body buffer is left outstanding: it is never returned |
| ConnectionProperties.ReceiveFailureCloses | driver/src/main/org/mongodb/impl/DefaultConnection.java:85-99 | after a passed check, a receive fails exactly when the framing raised. Every failure closes the connection and is a `MongoException`. An I/O error is classified; a `MongoException` goes up unchanged; any other runtime exception becomes an internal error with its cause |
| ConnectionProperties.BodyTimeout | driver/src/main/org/mongodb/impl/DefaultConnection.java:141-143 | a timeout while filling the body gives a read timeout with the address and closes the connection; the header buffer is already back in the pool |
| ConnectionProperties.SendAndReceiveComposes | driver/src/main/org/mongodb/impl/DefaultConnection.java:78-82 | when the send fails, its error is the result: nothing is read and the pool is untouched. Otherwise the result is exactly a receive from the state the send left |
| Lifecycle.ApplyKeepsClosed | driver/src/main/org/mongodb/impl/DefaultConnection.java:47-57 | no operation clears the closed flag |
| Lifecycle.ClosedIsTerminal | driver/src/main/org/mongodb/impl/DefaultConnection.java:47-57 | once closed, a connection stays closed after any sequence of calls |
| Lifecycle.CloseInRunLeavesClosed | driver/src/main/org/mongodb/impl/DefaultConnection.java:55-57 | after any run that calls `close()` one or more times, the connection is closed |
| Lifecycle.IsClosedHasNoEffect | driver/src/main/org/mongodb/impl/DefaultConnection.java:59-62 | a run that starts with `isClosed()` ends as the run without it; the run model takes `isClosed()` as a no-op, which rests on `DefaultConnection.IsClosed` being a function that only reads the flag |
| Lifecycle.ReceiveFrameConsistent | driver/src/main/org/mongodb/impl/DefaultConnection.java:120-149 | the framing steps keep the pool's accounting invariant on every path |
| Lifecycle.ReceiveConsistent | driver/src/main/org/mongodb/impl/DefaultConnection.java:84-99 | a receive keeps the pool's accounting invariant, whatever it raises |
| Lifecycle.SendAndReceiveConsistent | driver/src/main/org/mongodb/impl/DefaultConnection.java:78-82 | a send-and-receive keeps the pool's accounting invariant |
| Lifecycle.ApplyConsistent | driver/src/main/org/mongodb/impl/DefaultConnection.java:68-99 | every operation keeps the pool's accounting invariant |
| Lifecycle.RunKeepsPoolConsistent | driver/src/main/org/mongodb/impl/DefaultConnection.java:120-149 | over any sequence of calls, every `done` returns a buffer that is out and no id is lent twice |
| Lifecycle.NoDoubleReleaseInRun | driver/src/main/org/mongodb/impl/DefaultConnection.java:129-131 | over any sequence of calls from a consistent pool, no buffer is returned twice |

## Notes on the code

- The header's `messageLength` is a Java `int`, and `messageLength - 36` is
  computed in `int` arithmetic, so the model wraps it (`Sub32`).
- The code has no lower-bound check on `messageLength` and no error branch
  for `numberReturned > 0` with `messageLength < 36`. The model follows the
  code and adds none. For a length from 0 to 35 (or a negative one down to
  `Integer.MIN_VALUE + 36`) it passes a negative size to the pool's `get`.
  For a length within 36 of `Integer.MIN_VALUE` the subtraction wraps and
  the size passed is above the maximum, about 2^31 (`BodyRequestWraps`).
- `MongoInternalException` is a `MongoException`. The "too large" error is
  therefore caught by the `MongoException` branch of `receiveMessage()`:
  the connection is closed, and the error is re-raised unchanged.
- In `sendMessage`, only an `IOException` closes the connection. Any other
  runtime exception from the transport goes up as it is and leaves the
  flag unchanged.
- `sendAndReceiveMessage` calls `ensureOpen` up to three times: its own
  check, the one in `sendMessage` and the one in `receiveMessage()`.
- Whether a closed connection fails its next call depends on
  `ensureOpen`. That is abstract in this class, so the model does not tie
  it to the flag.

## Left out

- Elapsed time (`System.nanoTime()`): a clock. The response carries no
  elapsed time.
- `volatile` visibility of the flag and closing from another thread:
  concurrency is not modelled. Calls are sequential.
- Byte-level decoding of the reply header (`MongoReplyHeader`). MongoReplyHeader is not part of this model. The decoder is a parameter that yields a header or an unchecked exception.
- Real socket or channel I/O and buffer flipping. The transport is a
  script of per-call outcomes. `ensureOpen`'s meaning is left to that
  script.
- Failures of the pool itself: `get` and `done` always succeed. This
  includes a `get` with a negative size, whose behaviour belongs to the
  pool implementation, which is not part of this model.
- Subclassing: a concrete connection kind is represented by the transport
  object the class holds, not by subclasses.
- `PooledInputBuffer`, `BasicInputBuffer` and `ResponseBuffers` wrappers:
  the response holds the body buffer value directly. Releasing that buffer
  later is its owner's business.
- Java `Error` throwables (for example `OutOfMemoryError`): they are not
  among the modelled faults. In the source they escape the catches of
  `receiveMessage()` and `sendMessage` without closing the connection.
- Exception messages: error values carry their kind, address, cause and,
  for the "too large" error, both lengths, but not the message text.
