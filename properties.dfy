/**
 * What the connection promises about one call: buffer ownership, the
 * closed-after-failure rule, the maximum-length check, the optional body and
 * the classification of failures.
 */
module ConnectionProperties {
  import opened Protocol
  import opened Errors
  import opened Pool
  import opened Transport
  import opened ConnectionSpec

  /** `close()` only sets the flag, so closing twice is closing once. */
  lemma CloseIdempotent(st: State)
    ensures Close(Close(st)) == Close(st)
    ensures Close(st).closed
  {
  }

  /** A failed liveness check raises "not open" and touches nothing but the check itself. */
  lemma NotOpenTouchesNothing(env: Env, st: State, m: OutMessage)
    requires !env.script.open(st.wire.checks)
    ensures var (r, st') := SendMessage(env, st, m);
      r == Err(Mongo(NotOpen)) && st'.closed == st.closed && st'.pool == st.pool &&
      st'.wire.calls == st.wire.calls + [EnsureOpenCall]
    ensures var (r, st') := Receive(env, st);
      r == Err(Mongo(NotOpen)) && st'.closed == st.closed && st'.pool == st.pool &&
      st'.wire.calls == st.wire.calls + [EnsureOpenCall]
    ensures var (r, st') := SendAndReceive(env, st, m);
      r == Err(Mongo(NotOpen)) && st'.closed == st.closed && st'.pool == st.pool &&
      st'.wire.calls == st.wire.calls + [EnsureOpenCall]
  {
  }

  /**
   * A send never touches the pool; it closes the connection exactly when the
   * transport throws an I/O error, which becomes a write failure carrying the
   * server address. Any other exception from the transport goes up unchanged
   * and leaves the flag as it was.
   */
  lemma SendClosesOnlyOnIoFailure(env: Env, st: State, m: OutMessage)
    requires env.script.open(st.wire.checks)
    ensures var (r, st') := SendMessage(env, st, m);
      var out := env.script.send(st.wire.sends);
      st'.pool == st.pool &&
      st'.wire.calls == st.wire.calls + [EnsureOpenCall, SendCall(m)] &&
      (r == Ok(()) <==> out == Sent) &&
      (out.SendFails? && out.fault.Io? ==> r == Err(Mongo(SocketWrite(env.address, out.fault.kind)))) &&
      (out.SendFails? && out.fault.Thrown? ==> r == Err(out.fault.exc)) &&
      (st'.closed <==> st.closed || (out.SendFails? && out.fault.Io?))
  {
  }

  /**
   * Steps 1-4 of a receive borrow exactly one buffer, of the header length,
   * and return it exactly once, on every path: a failing fill and a failing
   * decode included. Nothing else about the pool changes.
   */
  lemma HeaderBufferReturnedOnce(env: Env, st: State)
    ensures var (_, st') := ReadHeader(env, st);
      var id := st.pool.nextId;
      st'.pool.log == st.pool.log + [Lent(id, REPLY_HEADER_LENGTH), Returned(id)] &&
      st'.pool.outstanding == st.pool.outstanding - {id} &&
      st'.pool.nextId == id + 1 &&
      st'.wire.calls == st.wire.calls + [FillCall(id)] &&
      st'.closed == st.closed
  {
  }

  /** The header a receive reads, when its liveness check passes. */
  function HeaderSeen(env: Env, st: State): Outcome<ReplyHeader> {
    ReadHeader(env, Check(env, st).1).0
  }

  /**
   * A receive whose header announces more than the maximum raises an
   * internal error, requests no body buffer (the pool sees only the header
   * borrow and its return) and leaves the connection closed.
   */
  lemma OversizedRequestsNoBody(env: Env, st: State)
    requires env.script.open(st.wire.checks)
    requires HeaderSeen(env, st).Completes?
    requires HeaderSeen(env, st).value.messageLength > MAXIMUM_EXPECTED_REPLY_MESSAGE_LENGTH
    ensures var (r, st') := Receive(env, st);
      var h := HeaderSeen(env, st).value;
      var id := st.pool.nextId;
      r == Err(Mongo(Internal(MessageTooLarge(h.messageLength, MAXIMUM_EXPECTED_REPLY_MESSAGE_LENGTH)))) &&
      st'.pool.log == st.pool.log + [Lent(id, REPLY_HEADER_LENGTH), Returned(id)] &&
      st'.closed
  {
    HeaderBufferReturnedOnce(env, Check(env, st).1);
  }

  /**
   * A successful receive returns the header the decoder makes of the first
   * fill's bytes, and a body exactly when that header announces documents.
   * The body is the second borrow, of size `messageLength - REPLY_HEADER_LENGTH`,
   * holding the second fill's bytes, and stays outstanding: its owner is the
   * response. The flag is unchanged.
   */
  lemma SuccessfulReceive(env: Env, st: State)
    requires Receive(env, st).0.Ok?
    ensures env.script.open(st.wire.checks) && HeaderSeen(env, st).Completes?
    ensures env.script.fill(st.wire.fills).Filled?
    ensures env.decode(env.script.fill(st.wire.fills).bytes) == Parsed(HeaderSeen(env, st).value)
    ensures var (r, st') := Receive(env, st);
      var h := HeaderSeen(env, st).value;
      var id := st.pool.nextId;
      r.value.header == h &&
      h.messageLength <= MAXIMUM_EXPECTED_REPLY_MESSAGE_LENGTH &&
      (r.value.body.Some? <==> h.numberReturned > 0) &&
      st'.closed == st.closed &&
      if h.numberReturned > 0 then
        env.script.fill(st.wire.fills + 1).Filled? &&
        r.value.body.value == Buffer(id + 1, BodyRequestSize(h), env.script.fill(st.wire.fills + 1).bytes) &&
        st'.pool.log == st.pool.log + [Lent(id, REPLY_HEADER_LENGTH), Returned(id), Lent(id + 1, BodyRequestSize(h))] &&
        st'.pool.outstanding == st.pool.outstanding - {id} + {id + 1}
      else
        st'.pool.log == st.pool.log + [Lent(id, REPLY_HEADER_LENGTH), Returned(id)] &&
        st'.pool.outstanding == st.pool.outstanding - {id}
  {
    HeaderBufferReturnedOnce(env, Check(env, st).1);
  }

  /**
   * When the body fill fails, the body buffer is not returned: it stays
   * outstanding, the header buffer was already returned, and the connection
   * is closed.
   */
  lemma BodyFillFailureKeepsBodyBuffer(env: Env, st: State)
    requires env.script.open(st.wire.checks)
    requires HeaderSeen(env, st).Completes?
    requires HeaderSeen(env, st).value.messageLength <= MAXIMUM_EXPECTED_REPLY_MESSAGE_LENGTH
    requires HeaderSeen(env, st).value.numberReturned > 0
    requires env.script.fill(st.wire.fills + 1).FillFails?
    ensures var (r, st') := Receive(env, st);
      var id := st.pool.nextId;
      r.Err? && st'.closed &&
      st'.pool.log == st.pool.log + [Lent(id, REPLY_HEADER_LENGTH), Returned(id),
                                     Lent(id + 1, BodyRequestSize(HeaderSeen(env, st).value))] &&
      id + 1 in st'.pool.outstanding
  {
    HeaderBufferReturnedOnce(env, Check(env, st).1);
  }

  /**
   * Every exception out of a receive whose check passed leaves the
   * connection closed and is a `MongoException`: an I/O error is classified,
   * a `MongoException` goes up unchanged and any other runtime exception is
   * wrapped as an internal error.
   */
  lemma ReceiveFailureCloses(env: Env, st: State)
    requires env.script.open(st.wire.checks)
    ensures var (r, st') := Receive(env, st);
      var (framed, _) := ReceiveFrame(env, Check(env, st).1);
      (r.Err? ==> st'.closed && r.exc.Mongo?) &&
      (r.Err? <==> framed.Raises?) &&
      (framed.Raises? && framed.fault.Io? ==> r.exc.error == ClassifyRead(env.address, framed.fault.kind)) &&
      (framed.Raises? && framed.fault.Thrown? && framed.fault.exc.Mongo? ==> r.exc == framed.fault.exc) &&
      (framed.Raises? && framed.fault.Thrown? && framed.fault.exc.Runtime? ==>
         r.exc.error == Internal(UnexpectedRuntime(framed.fault.exc.cause)))
  {
  }

  /**
   * A timeout while the body is read: the connection ends closed, the error
   * is a read timeout carrying the address, and the header buffer had
   * already been returned.
   */
  lemma BodyTimeout(env: Env, st: State)
    requires env.script.open(st.wire.checks)
    requires HeaderSeen(env, st).Completes?
    requires HeaderSeen(env, st).value.messageLength <= MAXIMUM_EXPECTED_REPLY_MESSAGE_LENGTH
    requires HeaderSeen(env, st).value.numberReturned > 0
    requires env.script.fill(st.wire.fills + 1) == FillFails(Io(SocketTimeout))
    ensures var (r, st') := Receive(env, st);
      r == Err(Mongo(SocketReadTimeout(env.address, SocketTimeout))) && st'.closed &&
      st.pool.nextId !in st'.pool.outstanding
  {
    BodyFillFailureKeepsBodyBuffer(env, st);
  }

  /**
   * `sendAndReceiveMessage`: when the send fails nothing is read and the
   * pool is untouched; otherwise the result is exactly that of a receive
   * from the state the send left.
   */
  lemma SendAndReceiveComposes(env: Env, st: State, m: OutMessage)
    requires env.script.open(st.wire.checks)
    ensures var (sent, st1) := SendMessage(env, Check(env, st).1, m);
      var (r, st') := SendAndReceive(env, st, m);
      (sent.Err? ==> r == Err(sent.exc) && st' == st1 && st'.pool == st.pool &&
                     st'.wire.fills == st.wire.fills) &&
      (sent.Ok? ==> (r, st') == Receive(env, st1))
  {
  }
}
