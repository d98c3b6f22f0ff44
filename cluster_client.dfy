/**
 * The client side of the gRPC cluster-client gateway. The actor keeps one
 * session per original sender: the first command from a sender opens a
 * session (a stream whose input end is a drop-new buffer feeding the
 * receptionist), later commands from that sender go to the same session,
 * and `Terminated` forgets the sender's entry. `SendAsk` bypasses the
 * sessions with a single request.
 *
 * A session is identified by its index in `sessions`; the `CompletionStage`
 * of its input reference is taken as completed, so a command handed to a
 * session lands in its buffer at once.
 */
module ClusterClient {
  import opened Wrappers
  import opened GrpcProtocol
  import DropNewBuffer

  datatype Command =
    | Send(path: string, msg: AppMessage, localAffinity: bool)
    | SendAsk(path: string, msg: AppMessage, localAffinity: bool)
    | SendToAll(path: string, msg: AppMessage)
    | Publish(topic: string, msg: AppMessage)
    | OtherCommand(className: string)

  /** What the actor receives: a command from some sender, or the death of a watched actor. */
  datatype Message = CommandMessage(sender: ActorRef, cmd: Command) | Terminated(actor: ActorRef)

  type SessionId = nat

  /**
   * A session: whom it answers, the commands waiting in its input buffer,
   * and whether its stream has failed. A failed stream emits nothing more;
   * commands still offered to it are lost.
   */
  datatype Session = Session(sender: ActorRef, pending: seq<Command>, failed: bool)

  const SendAskClassName := "sample.cluster.client.grpc.ClusterClient$SendAsk"

  /**
   * The `map` stage of a session: a command becomes the request of the same
   * kind carrying the same path or topic, the same affinity flag and the
   * serialized message; any other command is an IllegalArgumentException.
   */
  function ToReq(ser: Serialization, cmd: Command): (r: Result<Req, string>)
    ensures cmd.Send? ==> r == Ok(SendCase(SendReq(cmd.path, cmd.localAffinity, ser.serialize(cmd.msg))))
    ensures cmd.SendToAll? ==> r == Ok(SendToAllCase(SendToAllReq(cmd.path, ser.serialize(cmd.msg))))
    ensures cmd.Publish? ==> r == Ok(PublishCase(PublishReq(cmd.topic, ser.serialize(cmd.msg))))
    ensures r.Err? <==> cmd.SendAsk? || cmd.OtherCommand?
    ensures r.Ok? ==> !r.value.ReqNotSet?
  {
    match cmd
    case Send(path, msg, localAffinity) => Ok(SendCase(SendReq(path, localAffinity, ser.serialize(msg))))
    case SendToAll(path, msg) => Ok(SendToAllCase(SendToAllReq(path, ser.serialize(msg))))
    case Publish(topic, msg) => Ok(PublishCase(PublishReq(topic, ser.serialize(msg))))
    case SendAsk(_, _, _) => Err("Unknown message type: class " + SendAskClassName)
    case OtherCommand(name) => Err("Unknown message type: class " + name)
  }

  /** `askSend`: the single SendReq sent for a SendAsk. */
  function AskSendReq(ser: Serialization, cmd: Command): (r: SendReq)
    requires cmd.SendAsk?
    ensures r.path == cmd.path && r.localAffinity == cmd.localAffinity
    ensures RoundTrips(ser) ==> ser.deserialize(r.payload) == Ok(cmd.msg)
  {
    SendReq(cmd.path, cmd.localAffinity, ser.serialize(cmd.msg))
  }

  /** The reply of an ask, decoded for the asker. */
  function AskReply(ser: Serialization, rsp: Rsp): Result<AppMessage, string>
  {
    ser.deserialize(rsp.payload)
  }

  class ClusterClientActor {
    const bufferSize: nat
    var sessionRef: map<ActorRef, SessionId>
    var sessions: seq<Session>
    var watched: set<ActorRef>
    var killSwitchShutdown: bool

    /**
     * Every registered sender's session exists and answers that sender, and
     * no session buffer holds more than `bufferSize` commands.
     */
    predicate Valid()
      reads this
    {
      && (forall a :: a in sessionRef ==> sessionRef[a] < |sessions| && sessions[sessionRef[a]].sender == a)
      && (forall i :: 0 <= i < |sessions| ==> |sessions[i].pending| <= bufferSize)
    }

    constructor (bufferSize: nat)
      ensures Valid()
      ensures this.bufferSize == bufferSize
      ensures sessionRef == map[] && sessions == [] && watched == {} && !killSwitchShutdown
    {
      this.bufferSize := bufferSize;
      sessionRef := map[];
      sessions := [];
      watched := {};
      killSwitchShutdown := false;
    }

    /**
     * `onCommand`: look the sender up, open a session for it if it has none,
     * watch the sender and hand the command to its session's buffer.
     */
    method OnCommand(sender: ActorRef, cmd: Command) returns (session: SessionId)
      requires Valid()
      modifies this
      ensures Valid()
      ensures sender in old(sessionRef) ==>
        session == old(sessionRef)[sender] && sessionRef == old(sessionRef) && |sessions| == |old(sessions)|
      ensures sender !in old(sessionRef) ==>
        session == |old(sessions)| && sessionRef == old(sessionRef)[sender := session]
        && |sessions| == |old(sessions)| + 1 && sessions[session].sender == sender
      ensures session < |sessions| && sessionRef[sender] == session
      ensures session < |old(sessions)| ==>
        sessions[session] == old(sessions)[session].(pending := DropNewBuffer.Offer(old(sessions)[session].pending, cmd, bufferSize))
      ensures session == |old(sessions)| ==>
        sessions[session].pending == DropNewBuffer.Offer([], cmd, bufferSize) && !sessions[session].failed
      ensures forall i :: 0 <= i < |old(sessions)| && i != session ==> sessions[i] == old(sessions)[i]
      ensures watched == old(watched) + {sender}
      ensures killSwitchShutdown == old(killSwitchShutdown)
    {
      if sender in sessionRef {
        session := sessionRef[sender];
      } else {
        session := |sessions|;
        sessions := sessions + [Session(sender, [], false)];
        sessionRef := sessionRef[sender := session];
      }
      watched := watched + {sender};
      var s := sessions[session];
      sessions := sessions[session := s.(pending := DropNewBuffer.Offer(s.pending, cmd, bufferSize))];
    }

    /** `onTerminated`: forget the dead actor's session, and nothing else. */
    method OnTerminated(actor: ActorRef)
      requires Valid()
      modifies this
      ensures Valid()
      ensures sessionRef == old(sessionRef) - {actor}
      ensures sessions == old(sessions) && watched == old(watched) && killSwitchShutdown == old(killSwitchShutdown)
    {
      sessionRef := sessionRef - {actor};
    }

    /**
     * `createReceive`: a SendAsk is matched first and answered by a single
     * ask, without looking at the sessions; other commands go to
     * `onCommand`, Terminated to `onTerminated`.
     */
    method Receive(ser: Serialization, m: Message) returns (ask: Option<SendReq>)
      requires Valid()
      modifies this
      ensures Valid()
      ensures m.CommandMessage? && m.cmd.SendAsk? ==>
        ask == Some(AskSendReq(ser, m.cmd)) && sessionRef == old(sessionRef) && sessions == old(sessions)
        && watched == old(watched)
      ensures !(m.CommandMessage? && m.cmd.SendAsk?) ==> ask.None?
      ensures m.CommandMessage? && !m.cmd.SendAsk? ==>
        m.sender in sessionRef && sessionRef[m.sender] < |sessions| && watched == old(watched) + {m.sender}
      ensures m.CommandMessage? && !m.cmd.SendAsk? && m.sender in old(sessionRef) ==>
        && sessionRef == old(sessionRef) && |sessions| == |old(sessions)|
        && sessions[sessionRef[m.sender]]
           == old(sessions)[sessionRef[m.sender]].(pending := DropNewBuffer.Offer(old(sessions)[sessionRef[m.sender]].pending, m.cmd, bufferSize))
      ensures m.CommandMessage? && !m.cmd.SendAsk? && m.sender !in old(sessionRef) ==>
        && sessionRef == old(sessionRef)[m.sender := |old(sessions)|]
        && sessions == old(sessions) + [Session(m.sender, DropNewBuffer.Offer([], m.cmd, bufferSize), false)]
      ensures m.CommandMessage? && !m.cmd.SendAsk? ==>
        forall i :: 0 <= i < |old(sessions)| && i != sessionRef[m.sender] ==> sessions[i] == old(sessions)[i]
      ensures m.Terminated? ==>
        sessionRef == old(sessionRef) - {m.actor} && sessions == old(sessions) && watched == old(watched)
      ensures killSwitchShutdown == old(killSwitchShutdown)
    {
      match m {
        case CommandMessage(sender, cmd) =>
          if cmd.SendAsk? {
            ask := Some(AskSendReq(ser, cmd));
          } else {
            var _ := OnCommand(sender, cmd);
            ask := None;
          }
        case Terminated(actor) =>
          OnTerminated(actor);
          ask := None;
      }
    }

    /**
     * The session stream takes the oldest waiting command and turns it into
     * a request, as long as the shared kill switch is not shut down. A
     * command `toReq` cannot map throws inside the stream's `map` stage and
     * fails the stream: the session emits nothing after it.
     */
    method Emit(ser: Serialization, session: SessionId) returns (r: Option<Result<Req, string>>)
      requires Valid() && session < |sessions|
      modifies this
      ensures Valid()
      ensures old(killSwitchShutdown) || old(sessions)[session].failed || old(sessions)[session].pending == [] ==>
        r.None? && sessions == old(sessions)
      ensures !old(killSwitchShutdown) && !old(sessions)[session].failed && old(sessions)[session].pending != [] ==>
        && r == Some(ToReq(ser, old(sessions)[session].pending[0]))
        && sessions == old(sessions)[session := old(sessions)[session].(
             pending := old(sessions)[session].pending[1..],
             failed := ToReq(ser, old(sessions)[session].pending[0]).Err?)]
      ensures sessionRef == old(sessionRef) && watched == old(watched) && killSwitchShutdown == old(killSwitchShutdown)
    {
      var s := sessions[session];
      if killSwitchShutdown || s.failed || s.pending == [] {
        r := None;
      } else {
        var req := ToReq(ser, s.pending[0]);
        r := Some(req);
        sessions := sessions[session := s.(pending := s.pending[1..], failed := req.Err?)];
      }
    }

    /** A response arriving on a session is decoded and told to that session's sender. */
    method OnReply(ser: Serialization, session: SessionId, rsp: Rsp) returns (recipient: ActorRef, msg: Result<AppMessage, string>)
      requires session < |sessions|
      ensures recipient == sessions[session].sender
      ensures msg == ser.deserialize(rsp.payload)
    {
      recipient := sessions[session].sender;
      msg := ser.deserialize(rsp.payload);
    }

    /** `postStop`: shut the kill switch shared by every session. */
    method PostStop()
      modifies this
      ensures killSwitchShutdown
      ensures sessionRef == old(sessionRef) && sessions == old(sessions) && watched == old(watched)
    {
      killSwitchShutdown := true;
    }
  }

  /** Two different senders never share a session. */
  lemma AtMostOneSenderPerSession(c: ClusterClientActor, a: ActorRef, b: ActorRef)
    requires c.Valid()
    requires a in c.sessionRef && b in c.sessionRef && a != b
    ensures c.sessionRef[a] != c.sessionRef[b]
  {
  }
}
