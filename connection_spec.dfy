/**
 * The behaviour of `DefaultConnection`'s operations as functions from the
 * state before a call (closed flag, pool, transport) to the result and the
 * state after it. The class in module `Connection` is proved to follow them.
 */
module ConnectionSpec {
  import opened Protocol
  import opened Errors
  import opened Pool
  import opened Transport

  /** `new MongoReplyHeader(buffer)`: the parsed header, or the unchecked exception the decoder throws. */
  datatype ParseOutcome = Parsed(header: ReplyHeader) | ParseFails(exc: Unchecked)

  /** What a connection talks to: its server address, its transport and the header decoder. */
  datatype Env = Env(address: ServerAddress, script: Script, decode: seq<byte> -> ParseOutcome)

  /** Everything a call can change: the closed flag, the pool and the transport. */
  datatype State = State(closed: bool, pool: PoolState, wire: WireState)

  /** `close()`: sets the flag and nothing else. */
  function Close(st: State): (r: State)
    ensures r.closed && r.pool == st.pool && r.wire == st.wire
  {
    st.(closed := true)
  }

  /** `check()`, that is `ensureOpen()`. */
  function Check(env: Env, st: State): (r: (bool, State))
    ensures r.0 == env.script.open(st.wire.checks)
    ensures r.1.closed == st.closed && r.1.pool == st.pool
    ensures r.1.wire.calls == st.wire.calls + [EnsureOpenCall]
  {
    var (ok, w) := EnsureOpenStep(env.script, st.wire);
    (ok, st.(wire := w))
  }

  /** `sendMessage(buffer)`. */
  function SendMessage(env: Env, st: State, m: OutMessage): (r: (Result<()>, State))
  {
    var (ok, st1) := Check(env, st);
    if !ok then (Err(Mongo(NotOpen)), st1)
    else
      var (out, w) := SendStep(env.script, st1.wire, m);
      var st2 := st1.(wire := w);
      match out
      case Sent => (Ok(()), st2)
      case SendFails(Io(k)) => (Err(Mongo(SocketWrite(env.address, k))), Close(st2))
      case SendFails(Thrown(e)) => (Err(e), st2)
  }

  /** Steps 1-4 of a receive: borrow a header buffer, fill it, decode it, and return the buffer whatever happened. */
  function ReadHeader(env: Env, st: State): (r: (Outcome<ReplyHeader>, State))
  {
    var (headerBuffer, p1) := Acquire(st.pool, REPLY_HEADER_LENGTH);
    var (filled, w) := FillStep(env.script, st.wire, headerBuffer);
    var header :=
      match filled
      case Raises(f) => Raises(f)
      case Completes(b) =>
        match env.decode(b.data)
        case Parsed(h) => Completes(h)
        case ParseFails(e) => Raises(Thrown(e));
    (header, st.(pool := Release(p1, headerBuffer.id), wire := w))
  }

  /** The exception thrown for an announced length above the maximum. */
  function TooLarge(h: ReplyHeader): Fault {
    Thrown(Mongo(Internal(MessageTooLarge(h.messageLength, MAXIMUM_EXPECTED_REPLY_MESSAGE_LENGTH))))
  }

  /** `receiveMessage(long start)`: the framing protocol; what is thrown goes up unclassified. */
  function ReceiveFrame(env: Env, st: State): (r: (Outcome<Response>, State))
  {
    var (header, st1) := ReadHeader(env, st);
    match header
    case Raises(f) => (Raises(f), st1)
    case Completes(h) =>
      if h.messageLength > MAXIMUM_EXPECTED_REPLY_MESSAGE_LENGTH then (Raises(TooLarge(h)), st1)
      else if h.numberReturned > 0 then
        var (bodyBuffer, p) := Acquire(st1.pool, BodyRequestSize(h));
        var (body, w) := FillStep(env.script, st1.wire, bodyBuffer);
        var st2 := st1.(pool := p, wire := w);
        match body
        case Raises(f) => (Raises(f), st2)
        case Completes(b) => (Completes(Response(h, Some(b))), st2)
      else (Completes(Response(h, None)), st1)
  }

  /** `receiveMessage()`: a check, then the framing protocol, closing on every exception it catches. */
  function Receive(env: Env, st: State): (r: (Result<Response>, State))
  {
    var (ok, st1) := Check(env, st);
    if !ok then (Err(Mongo(NotOpen)), st1)
    else
      var (framed, st2) := ReceiveFrame(env, st1);
      match framed
      case Completes(resp) => (Ok(resp), st2)
      case Raises(Io(k)) => (Err(Mongo(ClassifyRead(env.address, k))), Close(Close(st2)))
      case Raises(Thrown(Mongo(e))) => (Err(Mongo(e)), Close(st2))
      case Raises(Thrown(Runtime(c))) => (Err(Mongo(Internal(UnexpectedRuntime(c)))), Close(st2))
  }

  /** `sendAndReceiveMessage(buffer)`: a check, a send, and a receive only if the send succeeded. */
  function SendAndReceive(env: Env, st: State, m: OutMessage): (r: (Result<Response>, State))
  {
    var (ok, st1) := Check(env, st);
    if !ok then (Err(Mongo(NotOpen)), st1)
    else
      var (sent, st2) := SendMessage(env, st1, m);
      match sent
      case Err(e) => (Err(e), st2)
      case Ok(_) => Receive(env, st2)
  }
}
