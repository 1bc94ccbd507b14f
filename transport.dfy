/**
 * The three abstract primitives a concrete connection kind supplies
 * (`ensureOpen`, `sendOneWayMessage`, `fillAndFlipBuffer`), played back from
 * a script: the n-th call of each primitive has a fixed outcome. The
 * transport also logs every call made to it.
 */
module Transport {
  import opened Protocol
  import opened Errors

  /** The encoded request held by a `ChannelAwareOutputBuffer`. */
  type OutMessage = seq<byte>

  /** What a primitive that may throw yields: a value, or what it threw. */
  datatype Outcome<+T> = Completes(value: T) | Raises(fault: Fault)

  datatype SendOutcome = Sent | SendFails(fault: Fault)

  datatype FillOutcome = Filled(bytes: seq<byte>) | FillFails(fault: Fault)

  /** Outcomes of the n-th `ensureOpen`, `sendOneWayMessage` and `fillAndFlipBuffer` call. */
  datatype Script = Script(open: nat -> bool, send: nat -> SendOutcome, fill: nat -> FillOutcome)

  datatype Call = EnsureOpenCall | SendCall(message: OutMessage) | FillCall(bufferId: nat)

  /** How many times each primitive has been called, and the log of all calls. */
  datatype WireState = WireState(checks: nat, sends: nat, fills: nat, calls: seq<Call>)

  /** `ensureOpen()`: false stands for the exception it throws on an unusable connection. */
  function EnsureOpenStep(s: Script, w: WireState): (r: (bool, WireState))
    ensures r.1.calls == w.calls + [EnsureOpenCall]
  {
    (s.open(w.checks), w.(checks := w.checks + 1, calls := w.calls + [EnsureOpenCall]))
  }

  /** `sendOneWayMessage(buffer)`. */
  function SendStep(s: Script, w: WireState, m: OutMessage): (r: (SendOutcome, WireState))
    ensures r.1.calls == w.calls + [SendCall(m)]
  {
    (s.send(w.sends), w.(sends := w.sends + 1, calls := w.calls + [SendCall(m)]))
  }

  /** `fillAndFlipBuffer(buffer)`: on success the same borrow, now holding the bytes read. */
  function FillStep(s: Script, w: WireState, b: Buffer): (r: (Outcome<Buffer>, WireState))
    ensures r.0.Completes? <==> s.fill(w.fills).Filled?
    ensures r.0.Completes? ==> r.0.value.id == b.id && r.0.value.size == b.size
    ensures r.1.calls == w.calls + [FillCall(b.id)]
  {
    var out := match s.fill(w.fills)
      case Filled(bytes) => Completes(b.(data := bytes))
      case FillFails(f) => Raises(f);
    (out, w.(fills := w.fills + 1, calls := w.calls + [FillCall(b.id)]))
  }

  class ScriptedTransport {
    const script: Script
    var checks: nat
    var sends: nat
    var fills: nat
    ghost var calls: seq<Call>

    ghost function Model(): WireState
      reads this
    {
      WireState(checks, sends, fills, calls)
    }

    constructor (script: Script)
      ensures this.script == script && Model() == WireState(0, 0, 0, [])
    {
      this.script := script;
      checks, sends, fills, calls := 0, 0, 0, [];
    }

    method EnsureOpen() returns (ok: bool)
      modifies this
      ensures (ok, Model()) == EnsureOpenStep(script, old(Model()))
    {
      ok := script.open(checks);
      checks, calls := checks + 1, calls + [EnsureOpenCall];
    }

    method SendOneWayMessage(m: OutMessage) returns (out: SendOutcome)
      modifies this
      ensures (out, Model()) == SendStep(script, old(Model()), m)
    {
      out := script.send(sends);
      sends, calls := sends + 1, calls + [SendCall(m)];
    }

    method FillAndFlipBuffer(b: Buffer) returns (out: Outcome<Buffer>)
      modifies this
      ensures (out, Model()) == FillStep(script, old(Model()), b)
    {
      match script.fill(fills) {
        case Filled(bytes) => out := Completes(b.(data := bytes));
        case FillFails(f) => out := Raises(f);
      }
      fills, calls := fills + 1, calls + [FillCall(b.id)];
    }
  }
}
