/** Records that travel between the REST API, the socket relay and the
    clients, and the relay's event vocabulary. Ids are the string forms of
    database ids; a socket id names one live transport connection. */
module Wire {

  datatype Option<+T> = None | Some(value: T)

  type Id = string
  type SocketId = string

  /** A user as the API populates it into conversations and messages. */
  datatype Participant = Participant(id: Id, name: string)

  /** A message's `sender` is either a populated user object or the bare user id. */
  datatype Sender = Populated(user: Participant) | Unpopulated(userId: Id)

  datatype Message = Message(
    id: Id,
    conversationId: Id,
    sender: Sender,
    content: string,
    createdAt: string)

  /** `lastMessage` is `None` when the conversation has no message yet. */
  datatype Conversation = Conversation(
    id: Id,
    participants: seq<Participant>,
    lastMessage: Option<Message>,
    updatedAt: string)

  /** Socket events with their payloads, one constructor per event name:
      'setup', 'connected', 'join conversation', 'leave conversation',
      'new message', 'message received', 'typing' and 'stop typing'.
      The typing payloads hold exactly the fields the relay forwards. */
  datatype Event =
    | Setup(userId: Id)
    | Connected
    | JoinConversation(room: Id)
    | LeaveConversation(room: Id)
    | NewMessage(message: Message)
    | MessageReceived(message: Message)
    | Typing(conversationId: Id, senderName: string)
    | StopTyping(conversationId: Id)

  /** One event handed by the relay to one connection. */
  datatype Delivery = Delivery(recipient: SocketId, event: Event)
}
