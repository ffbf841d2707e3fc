/** Values that cross the relay: connection handles, WebSocket messages,
    the writes the relay issues and the results of reading a connection. */
module Wire {

  newtype byte = x: int | 0 <= x < 256

  /** An opaque connection handle. In the server it is a pointer returned by
      the upgrade step, so two connections are only equal when they are the
      same handle. */
  datatype Conn = Conn(id: nat)

  /** The frame kinds ReadMessage can return (control frames are answered
      inside the WebSocket library and never reach the relay). */
  datatype MessageType = TextMessage | BinaryMessage

  /** One data message: its frame kind and its opaque payload. */
  datatype Message = Message(kind: MessageType, payload: seq<byte>)

  /** One attempted WriteMessage call: the recipient and what was written. */
  datatype Write = Write(to: Conn, msg: Message)

  /** What one call of ReadMessage produces. Every error (orderly close,
      abnormal close, protocol or transport fault) ends the session the same
      way, so the error itself carries no information the model needs. */
  datatype ReadResult = Received(msg: Message) | ReadError

  /** The set of handles listed in a sequence. */
  function Elems(order: seq<Conn>): (s: set<Conn>)
    ensures forall c :: c in s <==> c in order
  {
    set c | c in order
  }

  /** No handle occurs twice in the sequence. */
  predicate Distinct(order: seq<Conn>)
  {
    forall i, j :: 0 <= i < j < |order| ==> order[i] != order[j]
  }

  /** `order` visits every handle of `s` exactly once and nothing else:
      one of the orders in which a Go range loop can run over a map keyed by `s`. */
  predicate Enumerates(order: seq<Conn>, s: set<Conn>)
  {
    Distinct(order) && Elems(order) == s
  }
}
