/**
 * Values exchanged on the wire by a connection: Java's 32- and 64-bit
 * integers, the reply header, pooled buffers and the response handed back
 * to the caller.
 */
module Protocol {

  /** Java `int`. */
  newtype int32 = x: int | -0x8000_0000 <= x < 0x8000_0000

  /** Java `long`. */
  newtype int64 = x: int | -0x8000_0000_0000_0000 <= x < 0x8000_0000_0000_0000

  type byte = bv8

  /** Size of the fixed reply header, `MongoReplyHeader.REPLY_HEADER_LENGTH`. */
  const REPLY_HEADER_LENGTH: int32 := 36

  /** Largest announced message length a connection accepts. */
  const MAXIMUM_EXPECTED_REPLY_MESSAGE_LENGTH: int32 := 48000000

  datatype Option<+T> = None | Some(value: T)

  datatype ServerAddress = ServerAddress(host: string, port: int)

  /** The parsed reply header; its byte layout is not part of this model. */
  datatype ReplyHeader = ReplyHeader(
    messageLength: int32,
    requestId: int32,
    responseTo: int32,
    opCode: int32,
    responseFlags: int32,
    cursorId: int64,
    startingFrom: int32,
    numberReturned: int32)

  /**
   * A buffer lent by the pool: `id` identifies the borrow, `size` is the
   * size that was asked for, `data` what the transport filled it with.
   */
  datatype Buffer = Buffer(id: nat, size: int32, data: seq<byte>)

  /** `ResponseBuffers` without its elapsed time: the header and the optional body. */
  datatype Response = Response(header: ReplyHeader, body: Option<Buffer>)

  /** Java's `a - b` on `int`: the mathematical difference wrapped into 32 bits. */
  function Sub32(a: int32, b: int32): (r: int32)
    ensures (r as int - (a as int - b as int)) % 0x1_0000_0000 == 0
    ensures -0x8000_0000 <= a as int - b as int < 0x8000_0000 ==> r as int == a as int - b as int
  {
    var d := a as int - b as int;
    if d < -0x8000_0000 then (d + 0x1_0000_0000) as int32
    else if d >= 0x8000_0000 then (d - 0x1_0000_0000) as int32
    else d as int32
  }

  /** Size of the body buffer requested for a header, `messageLength - REPLY_HEADER_LENGTH`. */
  function BodyRequestSize(h: ReplyHeader): (r: int32)
    ensures h.messageLength as int >= -0x8000_0000 + REPLY_HEADER_LENGTH as int ==>
              r as int == h.messageLength as int - REPLY_HEADER_LENGTH as int
    ensures h.messageLength as int < -0x8000_0000 + REPLY_HEADER_LENGTH as int ==>
              r as int == h.messageLength as int - REPLY_HEADER_LENGTH as int + 0x1_0000_0000
  {
    Sub32(h.messageLength, REPLY_HEADER_LENGTH)
  }

  /**
   * An announced length that passes the maximum check asks for a body of at
   * most `MAXIMUM - REPLY_HEADER_LENGTH` bytes, and of a non-negative size
   * exactly when the length covers the header, unless the subtraction wraps.
   */
  lemma BodyRequestBounded(h: ReplyHeader)
    requires h.messageLength <= MAXIMUM_EXPECTED_REPLY_MESSAGE_LENGTH
    requires h.messageLength as int >= -0x8000_0000 + REPLY_HEADER_LENGTH as int
    ensures BodyRequestSize(h) as int <= MAXIMUM_EXPECTED_REPLY_MESSAGE_LENGTH as int - REPLY_HEADER_LENGTH as int
    ensures BodyRequestSize(h) >= 0 <==> h.messageLength >= REPLY_HEADER_LENGTH
  {
  }

  /**
   * The maximum check does not bound the request when the announced length is
   * within 36 of `Integer.MIN_VALUE`: the subtraction wraps to a size above the
   * maximum.
   */
  lemma BodyRequestWraps(h: ReplyHeader)
    requires h.messageLength as int < -0x8000_0000 + REPLY_HEADER_LENGTH as int
    ensures h.messageLength <= MAXIMUM_EXPECTED_REPLY_MESSAGE_LENGTH
    ensures BodyRequestSize(h) > MAXIMUM_EXPECTED_REPLY_MESSAGE_LENGTH
  {
  }
}
