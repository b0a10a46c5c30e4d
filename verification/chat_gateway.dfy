/**
 * The chat gateway (`/chat` namespace): which users are present in which
 * chat rooms, and the gating of sent messages on that presence.
 *
 * Rooms and users are numeric here. As in the table gateway, each handler
 * is one atomic step whose awaited collaborator results are parameters.
 */
module ChatGateway {

  import opened Wrappers
  import opened Entities
  import opened JsValues
  import opened Registry
  import WsAuth

  type ChatRoomId = int

  /** The group `room-<roomId>` of this namespace. */
  datatype ChatGroup = ChatRoom(roomId: ChatRoomId)

  /** A saved message as returned by the chat service; its fields are not modelled. */
  type SavedMessage = JsValue

  datatype ChatMsg =
    | JoinedRoom(roomId: ChatRoomId)
    | LeftRoom(roomId: ChatRoomId)
    /** `savedMessages[0]`: absent (`undefined`) when the service saved nothing. */
    | NewMessage(message: Option<SavedMessage>)
    | ErrorMsg(fault: Fault)

  type ChatOut = Emission<ChatGroup, ChatMsg>

  /** `connectedUsers`. */
  type ChatPresence = Registry<ChatRoomId, UserId>

  /** What a connection attempt produces: the messages sent, and whether the server drops it. */
  datatype Connection = Connection(out: seq<ChatOut>, dropped: bool)

  /**
   * `handleConnection`: a socket that reaches the gateway without the user
   * the authentication middleware attaches gets one error and is dropped;
   * any other socket is accepted silently.
   */
  function HandleConnection(user: Option<Identity>): (c: Connection)
    ensures c.dropped <==> user.None?
    ensures user.None? ==> c.out == Reply(ErrorMsg(AuthDataMissing))
    ensures user.Some? ==> c.out == []
  {
    match user
    case None => Connection(Reply(ErrorMsg(AuthDataMissing)), true)
    case Some(_) => Connection([], false)
  }

  /**
   * `handleDisconnect`: the user leaves every room and an emptied room
   * entry is dropped. A socket without a user makes the handler throw
   * before it touches the registry, so nothing changes.
   */
  function HandleDisconnect(r: ChatPresence, user: Option<UserId>): (r': ChatPresence)
    ensures user.None? ==> r' == r
    ensures user.Some? ==>
      && Pruned(r')
      && (forall k, v :: Has(r', k, v) <==> Has(r, k, v) && v != user.value)
      && r'.Keys <= r.Keys
  {
    match user
    case None => r
    case Some(u) => PurgeAll(r, u)
  }

  /** On a registry without empty entries, the chat disconnect agrees with the table gateway's. */
  lemma DisconnectAgreesWithTable(r: ChatPresence, u: UserId)
    requires Pruned(r)
    ensures HandleDisconnect(r, Some(u)) == Purge(r, u)
  {
    PurgeAgreesWithPurgeAll(r, u);
  }

  /** One handler step: the presence after it, what it emitted, whether it asked the service to save the messages. */
  datatype ChatStep = ChatStep(presence: ChatPresence, out: seq<ChatOut>, saveRequested: bool)

  /**
   * `joinRoom`: once the room access check passes the user is present in
   * the room and told so; otherwise nothing changes and one error is sent.
   */
  function HandleJoinRoom(r: ChatPresence, user: UserId, roomId: ChatRoomId, access: Outcome<string>)
    : (step: ChatStep)
    ensures !step.saveRequested
    ensures access.Pass? ==>
      && (forall k, v :: Has(step.presence, k, v) <==> Has(r, k, v) || (k == roomId && v == user))
      && step.out == [ToCaller(JoinedRoom(roomId))]
    ensures access.Fail? ==>
      step.presence == r && step.out == Reply(ErrorMsg(Rejected("Cannot join room: " + access.error)))
    ensures Pruned(r) ==> Pruned(step.presence)
  {
    match access
    case Fail(e) => ChatStep(r, Reply(ErrorMsg(Rejected("Cannot join room: " + e))), false)
    case Pass => ChatStep(Add(r, roomId, user), [ToCaller(JoinedRoom(roomId))], false)
  }

  /** `leaveRoom`: the user is no longer present in the room, and is told so. */
  function HandleLeaveRoom(r: ChatPresence, user: UserId, roomId: ChatRoomId): (step: ChatStep)
    ensures !step.saveRequested
    ensures forall k, v :: Has(step.presence, k, v) <==> Has(r, k, v) && (k != roomId || v != user)
    ensures step.out == [ToCaller(LeftRoom(roomId))]
    ensures Pruned(r) ==> Pruned(step.presence)
  {
    ChatStep(Remove(r, roomId, user), [ToCaller(LeftRoom(roomId))], false)
  }

  /** Joining a room the user was not in and leaving it again restores the presence. */
  lemma JoinThenLeave(r: ChatPresence, user: UserId, roomId: ChatRoomId)
    requires Pruned(r) && !Has(r, roomId, user)
    ensures HandleLeaveRoom(HandleJoinRoom(r, user, roomId, Pass).presence, user, roomId).presence == r
  {
    AddThenRemove(r, roomId, user);
  }

  /**
   * `sendMessage`: the access check must pass and the user must be present
   * in the room; only then is the save attempted, and the first saved one
   * is broadcast to the room. A user who is absent gets
   * `InvalidParticipant` and no save is attempted; every other failure is one
   * error with the thrown message. The presence never changes.
   */
  function HandleSendMessage(r: ChatPresence, user: UserId, roomId: ChatRoomId,
                             access: Outcome<string>,
                             saved: Result<seq<SavedMessage>, string>): (step: ChatStep)
    ensures step.presence == r
    ensures step.saveRequested <==> access.Pass? && Has(r, roomId, user)
    ensures access.Fail? ==> step.out == Reply(ErrorMsg(Rejected(access.error)))
    ensures access.Pass? && !Has(r, roomId, user) ==> step.out == Reply(ErrorMsg(InvalidParticipant))
    ensures step.saveRequested && saved.Failure? ==> step.out == Reply(ErrorMsg(Rejected(saved.error)))
    ensures step.saveRequested && saved.Success? ==>
      && |step.out| == 1 && step.out[0] == ToGroup(ChatRoom(roomId), step.out[0].msg)
      && (step.out[0].msg == NewMessage(if saved.value == [] then None else Some(saved.value[0])))
  {
    match access
    case Fail(e) => ChatStep(r, Reply(ErrorMsg(Rejected(e))), false)
    case Pass =>
      if !Has(r, roomId, user) then ChatStep(r, Reply(ErrorMsg(InvalidParticipant)), false)
      else
        match saved
        case Failure(e) => ChatStep(r, Reply(ErrorMsg(Rejected(e))), true)
        case Success(messages) =>
          var first := if |messages| > 0 then Some(messages[0]) else None;
          ChatStep(r, [ToGroup(ChatRoom(roomId), NewMessage(first))], true)
  }

  /** After a disconnect, the user's messages are refused in every room until they join again. */
  lemma NoMessagesAfterDisconnect(r: ChatPresence, user: UserId, roomId: ChatRoomId,
                                  saved: Result<seq<SavedMessage>, string>)
    ensures var step := HandleSendMessage(HandleDisconnect(r, Some(user)), user, roomId, Pass, saved);
      !step.saveRequested && step.out == Reply(ErrorMsg(InvalidParticipant))
  {
    assert !Has(HandleDisconnect(r, Some(user)), roomId, user);
  }

  /** After a successful join, a message that passes the access check reaches the save. */
  lemma JoinEnablesMessages(r: ChatPresence, user: UserId, roomId: ChatRoomId,
                            saved: Result<seq<SavedMessage>, string>)
    ensures HandleSendMessage(HandleJoinRoom(r, user, roomId, Pass).presence, user, roomId, Pass, saved).saveRequested
  {
    assert Has(HandleJoinRoom(r, user, roomId, Pass).presence, roomId, user);
  }

  /** A connection the authenticator admitted is accepted by the gateway. */
  lemma AdmittedConnectionAccepted(h: WsAuth.Handshake, resolve: string -> Result<Identity, WsAuth.Thrown>)
    requires WsAuth.Authenticate(h, resolve).Admitted?
    ensures var c := HandleConnection(Some(WsAuth.Authenticate(h, resolve).user));
      !c.dropped && c.out == []
  {
  }

  /** A connection dropped for missing user data leaves no trace when it disconnects. */
  lemma DroppedConnectionLeavesNoTrace(r: ChatPresence)
    ensures HandleConnection(None).dropped
    ensures HandleDisconnect(r, None) == r
  {
  }
}
