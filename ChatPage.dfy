/** The chat page's effect: with a logged-in user it connects the socket,
    loads the conversation list and registers three listeners that hand relay
    events to the store; its cleanup removes exactly those listeners. With no
    user it only redirects to the login page. */
module ChatPage {
  import opened Wire
  import opened ChatStore

  /** The three socket listeners the page registers. */
  datatype Listener = OnMessageReceived | OnTyping | OnStopTyping

  const PageListeners: set<Listener> := {OnMessageReceived, OnTyping, OnStopTyping}

  /** What the effect does besides registering listeners, in order. */
  datatype PageStep =
    | Navigate(path: string)
    | ConnectSocket(userId: Id)
    | CallFetchConversations

  /** The store action a relay event leads to. */
  datatype StoreCall =
    | CallReceiveMessage(message: Message)
    | CallSetTyping(conversationId: Id, value: Option<string>)

  /** The listener that handles an event, if the page listens for it. */
  function ListenerFor(e: Event): (l: Option<Listener>)
    ensures l.Some? <==> e.MessageReceived? || e.Typing? || e.StopTyping?
    ensures l.Some? ==> l.value in PageListeners
  {
    match e
    case MessageReceived(_) => Some(OnMessageReceived)
    case Typing(_, _) => Some(OnTyping)
    case StopTyping(_) => Some(OnStopTyping)
    case _ => None
  }

  /** The store call each handled event makes: 'message received' passes the
      payload on unchanged, 'typing' stores the sender's name and 'stop
      typing' clears the entry. */
  function Route(e: Event): (call: Option<StoreCall>)
    ensures call.Some? <==> ListenerFor(e).Some?
    ensures e.MessageReceived? ==> call == Some(CallReceiveMessage(e.message))
    ensures e.Typing? ==> call == Some(CallSetTyping(e.conversationId, Some(e.senderName)))
    ensures e.StopTyping? ==> call == Some(CallSetTyping(e.conversationId, None))
  {
    match e
    case MessageReceived(m) => Some(CallReceiveMessage(m))
    case Typing(c, name) => Some(CallSetTyping(c, Some(name)))
    case StopTyping(c) => Some(CallSetTyping(c, None))
    case _ => None
  }

  /** Two typing events for one conversation: the later one decides what the
      store holds, and a 'stop typing' clears whatever was there. */
  lemma TypingLastWriterWins(typing: map<Id, Option<string>>, c: Id, first: Event, second: Event)
    requires first.Typing? || first.StopTyping?
    requires second.Typing? || second.StopTyping?
    requires first.conversationId == c && second.conversationId == c
    ensures var v1 := Route(first).value.value; var v2 := Route(second).value.value;
      typing[c := v1][c := v2] == typing[c := v2] &&
      (second.StopTyping? ==> typing[c := v1][c := v2][c] == None)
  {
  }

  class Page {
    const store: Store
    /** The page's listeners currently on the shared socket. */
    var handlers: set<Listener>
    var trace: seq<PageStep>

    constructor (store: Store)
      ensures this.store == store && handlers == {} && trace == []
    {
      this.store := store;
      handlers := {};
      trace := [];
    }

    /** The effect with `user` from the auth store and `response` as the
        outcome of `fetchConversations`. Without a user: a redirect to
        '/login' and nothing else. */
    method Mount(user: Option<Participant>, response: Option<seq<Conversation>>)
      modifies this, store
      ensures user.None? ==>
        trace == old(trace) + [Navigate("/login")] && handlers == old(handlers) &&
        store.conversations == old(store.conversations)
      ensures user.Some? ==>
        trace == old(trace) + [ConnectSocket(user.value.id), CallFetchConversations] &&
        handlers == old(handlers) + PageListeners &&
        store.conversations == (if response.Some? then response.value else old(store.conversations))
      ensures store.activeConversation == old(store.activeConversation) && store.messages == old(store.messages)
      ensures store.unreadCounts == old(store.unreadCounts) && store.isTyping == old(store.isTyping)
      ensures store.loadingMessages == old(store.loadingMessages)
    {
      if user.None? {
        trace := trace + [Navigate("/login")];
        return;
      }
      trace := trace + [ConnectSocket(user.value.id)];
      trace := trace + [CallFetchConversations];
      store.FetchConversations(response);
      handlers := handlers + PageListeners;
    }

    /** The effect's cleanup: the three listeners go, and no others. */
    method Unmount()
      modifies this
      ensures handlers == old(handlers) - PageListeners
      ensures trace == old(trace)
    {
      handlers := handlers - PageListeners;
    }

    /** A relay event arrives on the socket: if the page's listener for it is
        registered, the store call `Route` names is made, otherwise nothing
        changes. */
    method Dispatch(e: Event)
      modifies store
      ensures ListenerFor(e).None? || ListenerFor(e).value !in handlers ==>
        store.conversations == old(store.conversations) && store.messages == old(store.messages) &&
        store.unreadCounts == old(store.unreadCounts) && store.isTyping == old(store.isTyping)
      ensures ListenerFor(e).Some? && ListenerFor(e).value in handlers && Route(e).value.CallSetTyping? ==>
        store.isTyping == old(store.isTyping)[e.conversationId := Route(e).value.value] &&
        store.conversations == old(store.conversations) && store.messages == old(store.messages) &&
        store.unreadCounts == old(store.unreadCounts)
      ensures ListenerFor(e).Some? && ListenerFor(e).value in handlers && e.MessageReceived? ==>
        store.unreadCounts == UnreadAfterArrival(old(store.unreadCounts), old(store.activeConversation), e.message) &&
        store.conversations == PatchLastMessage(old(store.conversations), e.message.conversationId, e.message) &&
        store.messages == (if IsActiveId(old(store.activeConversation), e.message.conversationId)
          then old(store.messages) + [e.message] else old(store.messages)) &&
        store.isTyping == old(store.isTyping)
      ensures store.activeConversation == old(store.activeConversation)
      ensures store.loadingMessages == old(store.loadingMessages)
    {
      var l := ListenerFor(e);
      if l.None? || l.value !in handlers {
        return;
      }
      match Route(e).value
      case CallReceiveMessage(m) =>
        store.ReceiveMessage(m);
      case CallSetTyping(c, v) =>
        store.SetTyping(c, v);
    }
  }
}
