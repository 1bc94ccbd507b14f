/**
 * `DefaultConnection`: the closed flag, sending, and the framed receive of
 * a reply, over a buffer pool and a transport. Each method is proved to
 * follow the function of the same name in `ConnectionSpec`.
 */
module Connection {
  import opened Protocol
  import opened Errors
  import opened Pool
  import opened Transport
  import Spec = ConnectionSpec

  class DefaultConnection {
    const serverAddress: ServerAddress
    const bufferPool: BufferPool
    const transport: ScriptedTransport
    /** The header decoder, `new MongoReplyHeader(...)`. */
    const decode: seq<byte> -> Spec.ParseOutcome
    var closed: bool

    ghost function Env(): Spec.Env {
      Spec.Env(serverAddress, transport.script, decode)
    }

    ghost function Model(): Spec.State
      reads this, bufferPool, transport
    {
      Spec.State(closed, bufferPool.Model(), transport.Model())
    }

    /** The pool's accounting invariant holds. */
    ghost predicate Valid()
      reads bufferPool
    {
      bufferPool.Valid()
    }

    constructor (serverAddress: ServerAddress, bufferPool: BufferPool, transport: ScriptedTransport,
                 decode: seq<byte> -> Spec.ParseOutcome)
      requires bufferPool.Valid()
      ensures Valid() && !closed
      ensures this.serverAddress == serverAddress && this.bufferPool == bufferPool
      ensures this.transport == transport && this.decode == decode
    {
      this.serverAddress := serverAddress;
      this.bufferPool := bufferPool;
      this.transport := transport;
      this.decode := decode;
      closed := false;
    }

    method Close()
      modifies this
      ensures Model() == Spec.Close(old(Model()))
    {
      closed := true;
    }

    /** `isClosed()` only reads the flag. */
    function IsClosed(): (b: bool)
      reads this
      ensures b <==> Model().closed
    {
      closed
    }

    function GetServerAddress(): (a: ServerAddress)
      ensures a == Env().address
    {
      serverAddress
    }

    method Check() returns (ok: bool)
      modifies transport
      ensures (ok, Model()) == Spec.Check(Env(), old(Model()))
    {
      ok := transport.EnsureOpen();
    }

    method SendMessage(m: OutMessage) returns (r: Result<()>)
      modifies this, transport
      ensures (r, Model()) == Spec.SendMessage(Env(), old(Model()), m)
    {
      var ok := Check();
      if !ok {
        return Err(Mongo(NotOpen));
      }
      var out := transport.SendOneWayMessage(m);
      match out {
        case Sent => r := Ok(());
        case SendFails(Io(k)) =>
          Close();
          r := Err(Mongo(SocketWrite(GetServerAddress(), k)));
        case SendFails(Thrown(e)) => r := Err(e);
      }
    }

    method SendAndReceiveMessage(m: OutMessage) returns (r: Result<Response>)
      requires Valid()
      modifies this, bufferPool, transport
      ensures Valid()
      ensures (r, Model()) == Spec.SendAndReceive(Env(), old(Model()), m)
    {
      var ok := Check();
      if !ok {
        return Err(Mongo(NotOpen));
      }
      var sent := SendMessage(m);
      if sent.Err? {
        return Err(sent.exc);
      }
      r := ReceiveMessage();
    }

    method ReceiveMessage() returns (r: Result<Response>)
      requires Valid()
      modifies this, bufferPool, transport
      ensures Valid()
      ensures (r, Model()) == Spec.Receive(Env(), old(Model()))
    {
      var ok := Check();
      if !ok {
        return Err(Mongo(NotOpen));
      }
      var framed := ReceiveFrame();
      match framed {
        case Completes(resp) => r := Ok(resp);
        case Raises(Io(k)) =>
          Close();
          var e := TranslateReadException(k);
          r := Err(Mongo(e));
        case Raises(Thrown(Mongo(e))) =>
          Close();
          r := Err(Mongo(e));
        case Raises(Thrown(Runtime(c))) =>
          Close();
          r := Err(Mongo(Internal(UnexpectedRuntime(c))));
      }
    }

    /** `translateReadException`: closes, then classifies. */
    method TranslateReadException(k: IoKind) returns (e: MongoError)
      modifies this
      ensures Model() == Spec.Close(old(Model()))
      ensures e == ClassifyRead(serverAddress, k)
    {
      Close();
      e := ClassifyRead(serverAddress, k);
    }

    /** The private `receiveMessage(long start)`, without the clock. */
    method ReceiveFrame() returns (r: Outcome<Response>)
      requires Valid()
      modifies bufferPool, transport
      ensures Valid()
      ensures (r, Model()) == Spec.ReceiveFrame(Env(), old(Model()))
    {
      var headerBuffer := bufferPool.Get(REPLY_HEADER_LENGTH);
      var header: Outcome<ReplyHeader>;
      // try
      var filled := transport.FillAndFlipBuffer(headerBuffer);
      match filled {
        case Raises(f) => header := Raises(f);
        case Completes(b) =>
          match decode(b.data) {
            case Parsed(h) => header := Completes(h);
            case ParseFails(e) => header := Raises(Thrown(e));
          }
      }
      // finally
      bufferPool.Done(headerBuffer);
      if header.Raises? {
        return Raises(header.fault);
      }

      var h := header.value;
      if h.messageLength > MAXIMUM_EXPECTED_REPLY_MESSAGE_LENGTH {
        return Raises(Spec.TooLarge(h));
      }

      var body: Option<Buffer> := None;
      if h.numberReturned > 0 {
        var bodyBuffer := bufferPool.Get(BodyRequestSize(h));
        var bodyFilled := transport.FillAndFlipBuffer(bodyBuffer);
        if bodyFilled.Raises? {
          return Raises(bodyFilled.fault);
        }
        body := Some(bodyFilled.value);
      }
      r := Completes(Response(h, body));
    }
  }
}
