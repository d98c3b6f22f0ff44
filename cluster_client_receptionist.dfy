/**
 * The server side of the gRPC cluster-client gateway: each request of a
 * session becomes a message to the distributed pub-sub mediator, sent with
 * the session's response reference as sender so that replies flow back into
 * the session's response stream, and `askSend` answers a single request.
 */
module ClusterClientReceptionist {
  import opened Wrappers
  import opened GrpcProtocol
  import DropNewBuffer
  import ClusterClient

  /** The messages of `DistributedPubSubMediator`. */
  datatype MediatorMessage =
    | MediatorSend(path: string, msg: AppMessage, localAffinity: bool)
    | MediatorSendToAll(path: string, msg: AppMessage)
    | MediatorPublish(topic: string, msg: AppMessage)

  /** A `tell` to the mediator together with the sender it carries. */
  datatype Tell = Tell(message: MediatorMessage, sender: ActorRef)

  /**
   * One request of a session: SEND, SENDTOALL and PUBLISH become the
   * mediator message of the same kind with the decoded payload, sent with
   * the response reference as sender. A request with no case set is an
   * IllegalArgumentException, and so is a payload that cannot be decoded.
   */
  function Dispatch(ser: Serialization, req: Req, sessionRspRef: ActorRef): (r: Result<Tell, string>)
    ensures r.Ok? ==> r.value.sender == sessionRspRef
    ensures req.ReqNotSet? ==> r == Err("Unknown request type")
    ensures req.SendCase? ==>
      match ser.deserialize(req.send.payload)
      case Ok(msg) => r == Ok(Tell(MediatorSend(req.send.path, msg, req.send.localAffinity), sessionRspRef))
      case Err(e) => r == Err(e)
    ensures req.SendToAllCase? ==>
      match ser.deserialize(req.sendToAll.payload)
      case Ok(msg) => r == Ok(Tell(MediatorSendToAll(req.sendToAll.path, msg), sessionRspRef))
      case Err(e) => r == Err(e)
    ensures req.PublishCase? ==>
      match ser.deserialize(req.publish.payload)
      case Ok(msg) => r == Ok(Tell(MediatorPublish(req.publish.topic, msg), sessionRspRef))
      case Err(e) => r == Err(e)
  {
    match req
    case SendCase(sendReq) =>
      var msg := ser.deserialize(sendReq.payload);
      if msg.Err? then Err(msg.error)
      else Ok(Tell(MediatorSend(sendReq.path, msg.value, sendReq.localAffinity), sessionRspRef))
    case SendToAllCase(sendToAllReq) =>
      var msg := ser.deserialize(sendToAllReq.payload);
      if msg.Err? then Err(msg.error)
      else Ok(Tell(MediatorSendToAll(sendToAllReq.path, msg.value), sessionRspRef))
    case PublishCase(publishReq) =>
      var msg := ser.deserialize(publishReq.payload);
      if msg.Err? then Err(msg.error)
      else Ok(Tell(MediatorPublish(publishReq.topic, msg.value), sessionRspRef))
    case ReqNotSet => Err("Unknown request type")
  }

  /**
   * `runForeach` over a session's requests: each is dispatched in turn,
   * and the first one that throws ends the stream, so no later request of
   * that session reaches the mediator. The result is what was told, and
   * the failure, if any.
   */
  function DispatchAll(ser: Serialization, reqs: seq<Req>, sessionRspRef: ActorRef): (r: (seq<Tell>, Option<string>))
    ensures |r.0| <= |reqs|
    ensures forall i :: 0 <= i < |r.0| ==> Dispatch(ser, reqs[i], sessionRspRef) == Ok(r.0[i])
    ensures r.1.None? ==> |r.0| == |reqs|
    ensures r.1.Some? ==> |r.0| < |reqs| && Dispatch(ser, reqs[|r.0|], sessionRspRef) == Err(r.1.value)
  {
    if reqs == [] then ([], None)
    else
      match Dispatch(ser, reqs[0], sessionRspRef)
      case Err(e) => ([], Some(e))
      case Ok(t) =>
        var rest := DispatchAll(ser, reqs[1..], sessionRspRef);
        ([t] + rest.0, rest.1)
  }

  /** Whatever reaches the response reference is sent back wrapped in an Rsp. */
  function EncodeRsp(ser: Serialization, msg: AppMessage): (r: Rsp)
    ensures RoundTrips(ser) ==> ser.deserialize(r.payload) == Ok(msg)
  {
    Rsp(ser.serialize(msg))
  }

  /** A reply offered to the session's bounded, drop-new response buffer. */
  function OfferResponse(ser: Serialization, pending: seq<Rsp>, msg: AppMessage, bufferSize: nat): (r: seq<Rsp>)
    ensures |pending| <= bufferSize ==> |r| <= bufferSize
    ensures |pending| < bufferSize ==> r == pending + [EncodeRsp(ser, msg)]
    ensures |pending| >= bufferSize ==> r == pending
  {
    DropNewBuffer.Offer(pending, EncodeRsp(ser, msg), bufferSize)
  }

  /**
   * The future `askSend` returns: failed at once when the payload cannot be
   * decoded, otherwise an ask of the mediator under the configured timeout
   * whose answer will be wrapped in an Rsp.
   */
  datatype AskFuture =
    | FailedFuture(error: string)
    | PendingAsk(question: MediatorMessage, timeoutMillis: int)

  function AskSend(ser: Serialization, sendReq: SendReq, askSendTimeoutMillis: int): (f: AskFuture)
    ensures ser.deserialize(sendReq.payload).Err? <==> f.FailedFuture?
    ensures f.FailedFuture? ==> f.error == ser.deserialize(sendReq.payload).error
    ensures f.PendingAsk? ==>
      f == PendingAsk(MediatorSend(sendReq.path, ser.deserialize(sendReq.payload).value, sendReq.localAffinity),
                      askSendTimeoutMillis)
  {
    var msg := ser.deserialize(sendReq.payload);
    if msg.Err? then FailedFuture(msg.error)
    else PendingAsk(MediatorSend(sendReq.path, msg.value, sendReq.localAffinity), askSendTimeoutMillis)
  }

  /**
   * End to end: when decoding undoes encoding, a command a client session
   * turns into a request reaches the mediator as the message of the same
   * kind with the same path or topic, the same local-affinity flag and the
   * same message.
   */
  lemma SessionCommandReachesMediator(ser: Serialization, cmd: ClusterClient.Command, rspRef: ActorRef)
    requires RoundTrips(ser)
    requires ClusterClient.ToReq(ser, cmd).Ok?
    ensures var t := Dispatch(ser, ClusterClient.ToReq(ser, cmd).value, rspRef);
      && t.Ok? && t.value.sender == rspRef
      && (cmd.Send? ==> t.value.message == MediatorSend(cmd.path, cmd.msg, cmd.localAffinity))
      && (cmd.SendToAll? ==> t.value.message == MediatorSendToAll(cmd.path, cmd.msg))
      && (cmd.Publish? ==> t.value.message == MediatorPublish(cmd.topic, cmd.msg))
  {
    assert ser.deserialize(ser.serialize(cmd.msg)) == Ok(cmd.msg);
  }

  /** End to end for SendAsk: the ask carries the client's path, affinity and message. */
  lemma SendAskReachesMediator(ser: Serialization, cmd: ClusterClient.Command, timeoutMillis: int)
    requires RoundTrips(ser)
    requires cmd.SendAsk?
    ensures AskSend(ser, ClusterClient.AskSendReq(ser, cmd), timeoutMillis)
      == PendingAsk(MediatorSend(cmd.path, cmd.msg, cmd.localAffinity), timeoutMillis)
  {
  }

  /** The answer to an ask comes back to the asker as the mediator's reply. */
  lemma AskAnswerRoundTrip(ser: Serialization, answer: AppMessage)
    requires RoundTrips(ser)
    ensures ClusterClient.AskReply(ser, EncodeRsp(ser, answer)) == Ok(answer)
  {
  }
}
