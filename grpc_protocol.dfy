/**
 * The messages the gRPC gateway exchanges (the protobuf `Req`, `Rsp`,
 * `Payload` and request types) and the serialization of application
 * messages into a `Payload`. Akka's serialization extension is not part of
 * this model: it is a pair of functions handed in, and where a property
 * needs decoding to undo encoding it says so.
 */
module GrpcProtocol {
  import opened Wrappers

  /** An actor, by its path. */
  datatype ActorRef = ActorRef(path: string)

  /** An application message sent through the gateway. */
  datatype AppMessage = AppMessage(content: string)

  datatype Payload = Payload(enclosedMessage: seq<int>, serializerId: int, messageManifest: string)

  datatype SendReq = SendReq(path: string, localAffinity: bool, payload: Payload)
  datatype SendToAllReq = SendToAllReq(path: string, payload: Payload)
  datatype PublishReq = PublishReq(topic: string, payload: Payload)

  /** The `oneof` of a request; REQ_NOT_SET is a request with no case set. */
  datatype Req =
    | SendCase(send: SendReq)
    | SendToAllCase(sendToAll: SendToAllReq)
    | PublishCase(publish: PublishReq)
    | ReqNotSet

  datatype Rsp = Rsp(payload: Payload)

  /**
   * `serializePayload` and `deserializePayload`. Decoding may fail; the
   * failure carries the exception's message.
   */
  datatype Serialization = Serialization(
    serialize: AppMessage -> Payload,
    deserialize: Payload -> Result<AppMessage, string>)

  /** Decoding what was encoded gives the message back. */
  ghost predicate RoundTrips(ser: Serialization)
  {
    forall m :: ser.deserialize(ser.serialize(m)) == Ok(m)
  }
}
