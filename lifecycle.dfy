/**
 * A connection over a sequence of calls: the closed state is terminal, and
 * the pool's accounting invariant (no `done` without a matching outstanding
 * `get`, no id lent twice) survives every call.
 */
module Lifecycle {
  import opened Protocol
  import opened Errors
  import opened Pool
  import opened Transport
  import opened ConnectionSpec

  datatype Op = CloseOp | IsClosedOp | SendOp(m: OutMessage) | ReceiveOp | SendAndReceiveOp(m: OutMessage)

  /** The state after one call. */
  function Apply(env: Env, st: State, op: Op): State {
    match op
    case CloseOp => Close(st)
    case IsClosedOp => st
    case SendOp(m) => SendMessage(env, st, m).1
    case ReceiveOp => Receive(env, st).1
    case SendAndReceiveOp(m) => SendAndReceive(env, st, m).1
  }

  /** The state after a sequence of calls, first to last. */
  function Run(env: Env, st: State, ops: seq<Op>): State
    decreases |ops|
  {
    if ops == [] then st else Run(env, Apply(env, st, ops[0]), ops[1..])
  }

  /** No call reopens a connection. */
  lemma ApplyKeepsClosed(env: Env, st: State, op: Op)
    requires st.closed
    ensures Apply(env, st, op).closed
  {
    match op
    case SendAndReceiveOp(m) =>
      var (ok, st1) := Check(env, st);
      if ok {
        var (sent, st2) := SendMessage(env, st1, m);
      }
    case _ =>
  }

  /** Once closed, a connection stays closed whatever is called on it. */
  lemma {:induction false} ClosedIsTerminal(env: Env, st: State, ops: seq<Op>)
    requires st.closed
    ensures Run(env, st, ops).closed
    decreases |ops|
  {
    if ops != [] {
      ApplyKeepsClosed(env, st, ops[0]);
      ClosedIsTerminal(env, Apply(env, st, ops[0]), ops[1..]);
    }
  }

  /** After any run that calls `close()` at least once, `isClosed()` is true. */
  lemma {:induction false} CloseInRunLeavesClosed(env: Env, st: State, ops: seq<Op>)
    requires CloseOp in ops
    ensures Run(env, st, ops).closed
    decreases |ops|
  {
    if ops[0] == CloseOp {
      ClosedIsTerminal(env, Close(st), ops[1..]);
    } else {
      assert CloseOp in ops[1..];
      CloseInRunLeavesClosed(env, Apply(env, st, ops[0]), ops[1..]);
    }
  }

  /**
   * A run that starts with `isClosed()` ends as the run without it. This
   * holds because `IsClosedOp` leaves the state alone in `Apply`; that this
   * is what the source does rests on `DefaultConnection.IsClosed` being a
   * function that only reads the flag.
   */
  lemma IsClosedHasNoEffect(env: Env, st: State, ops: seq<Op>)
    ensures Run(env, st, [IsClosedOp] + ops) == Run(env, st, ops)
  {
    assert ([IsClosedOp] + ops)[1..] == ops;
  }

  /** Reading the header keeps the pool's accounting invariant. */
  lemma ReadHeaderConsistent(env: Env, st: State)
    requires Consistent(st.pool)
    ensures Consistent(ReadHeader(env, st).1.pool)
  {
    var (headerBuffer, p1) := Acquire(st.pool, REPLY_HEADER_LENGTH);
    AcquireConsistent(st.pool, REPLY_HEADER_LENGTH);
    ReleaseConsistent(p1, headerBuffer.id);
  }

  /** The framing steps keep the pool's accounting invariant, on every path. */
  lemma ReceiveFrameConsistent(env: Env, st: State)
    requires Consistent(st.pool)
    ensures Consistent(ReceiveFrame(env, st).1.pool)
  {
    ReadHeaderConsistent(env, st);
    var (header, st1) := ReadHeader(env, st);
    if header.Completes? {
      var h := header.value;
      if h.messageLength <= MAXIMUM_EXPECTED_REPLY_MESSAGE_LENGTH && h.numberReturned > 0 {
        AcquireConsistent(st1.pool, BodyRequestSize(h));
      }
    }
  }

  /** A receive changes the pool only through its framing steps. */
  lemma ReceiveConsistent(env: Env, st: State)
    requires Consistent(st.pool)
    ensures Consistent(Receive(env, st).1.pool)
  {
    var (ok, st1) := Check(env, st);
    if ok {
      ReceiveFrameConsistent(env, st1);
      var (framed, st2) := ReceiveFrame(env, st1);
      assert Receive(env, st).1.pool == st2.pool;
    }
  }

  /** A send-and-receive changes the pool only through its receive. */
  lemma SendAndReceiveConsistent(env: Env, st: State, m: OutMessage)
    requires Consistent(st.pool)
    ensures Consistent(SendAndReceive(env, st, m).1.pool)
  {
    var (ok, st1) := Check(env, st);
    if ok {
      var (sent, st2) := SendMessage(env, st1, m);
      if sent.Ok? {
        assert st2.pool == st.pool;
        ReceiveConsistent(env, st2);
      }
    }
  }

  /** Every call keeps the pool's accounting invariant. */
  lemma ApplyConsistent(env: Env, st: State, op: Op)
    requires Consistent(st.pool)
    ensures Consistent(Apply(env, st, op).pool)
  {
    match op
    case ReceiveOp => ReceiveConsistent(env, st);
    case SendAndReceiveOp(m) => SendAndReceiveConsistent(env, st, m);
    case _ =>
  }

  /** Over any run, every `done` returns a buffer that is out, and no id is lent twice. */
  lemma {:induction false} RunKeepsPoolConsistent(env: Env, st: State, ops: seq<Op>)
    requires Consistent(st.pool)
    ensures Consistent(Run(env, st, ops).pool)
    decreases |ops|
  {
    if ops != [] {
      ApplyConsistent(env, st, ops[0]);
      RunKeepsPoolConsistent(env, Apply(env, st, ops[0]), ops[1..]);
    }
  }

  /** Hence, over any run from a consistent pool, no buffer is ever returned twice. */
  lemma NoDoubleReleaseInRun(env: Env, st: State, ops: seq<Op>, i: nat, j: nat)
    requires Consistent(st.pool)
    requires var log := Run(env, st, ops).pool.log;
      i < j < |log| && log[i].Returned? && log[j].Returned?
    ensures var log := Run(env, st, ops).pool.log; log[i].id != log[j].id
  {
    RunKeepsPoolConsistent(env, st, ops);
    NoDoubleRelease(Run(env, st, ops).pool.log, i, j);
  }
}
