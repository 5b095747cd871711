/** The client's chat store: one state object holding the conversation list,
    the active conversation, the open conversation's messages, the unread
    counters, the typing signals and the loading flag, and the actions that
    update it. Every REST call an action makes is an external collaborator:
    its outcome is a parameter, `Some(record)` on success and `None` when the
    request failed. Each action is one atomic state transition. */
module ChatStore {
  import opened Wire

  /** `unreadCounts[id] || 0`: a missing counter reads as zero. */
  function CountOf(counts: map<Id, nat>, id: Id): nat {
    if id in counts then counts[id] else 0
  }

  /** `activeConversation && activeConversation._id === id`. */
  predicate IsActiveId(active: Option<Conversation>, id: Id) {
    active.Some? && active.value.id == id
  }

  function Ids(cs: seq<Conversation>): (ids: seq<Id>)
    ensures |ids| == |cs|
    ensures forall i :: 0 <= i < |cs| ==> ids[i] == cs[i].id
  {
    if cs == [] then [] else [cs[0].id] + Ids(cs[1..])
  }

  /** `conversations.find((c) => c._id === id)` finds an entry. */
  predicate HasId(cs: seq<Conversation>, id: Id) {
    id in Ids(cs)
  }

  predicate DistinctIds(cs: seq<Conversation>) {
    forall i, j :: 0 <= i < j < |cs| ==> cs[i].id != cs[j].id
  }

  /** `{ ...c, lastMessage: m, updatedAt: m.createdAt }`. */
  function WithLastMessage(c: Conversation, m: Message): Conversation {
    c.(lastMessage := Some(m), updatedAt := m.createdAt)
  }

  /** The `conversations.map` patch applied after a send or a receive: same
      entries in the same order, and only the entries whose id matches get the
      message as their most recent one. */
  function PatchLastMessage(cs: seq<Conversation>, id: Id, m: Message): (r: seq<Conversation>)
    ensures |r| == |cs| && Ids(r) == Ids(cs)
    ensures forall i :: 0 <= i < |cs| && cs[i].id != id ==> r[i] == cs[i]
    ensures forall i :: 0 <= i < |cs| && cs[i].id == id ==>
      r[i].lastMessage == Some(m) && r[i].updatedAt == m.createdAt &&
      r[i].participants == cs[i].participants
  {
    if cs == [] then []
    else
      var head := if cs[0].id == id then WithLastMessage(cs[0], m) else cs[0];
      [head] + PatchLastMessage(cs[1..], id, m)
  }

  /** Patching for an id no entry has leaves the list as it was: nothing is inserted. */
  lemma PatchWithoutMatchIsIdentity(cs: seq<Conversation>, id: Id, m: Message)
    requires !HasId(cs, id)
    ensures PatchLastMessage(cs, id, m) == cs
  {
    var r := PatchLastMessage(cs, id, m);
    forall i | 0 <= i < |cs| ensures r[i] == cs[i] {
      assert Ids(cs)[i] == cs[i].id;
    }
  }

  /** The prepend of `startOrOpenConversation`: the returned record goes in
      front only when no entry already has its id. */
  function PrependIfAbsent(cs: seq<Conversation>, c: Conversation): seq<Conversation> {
    if HasId(cs, c.id) then cs else [c] + cs
  }

  /** The prepend never introduces a duplicate id, always leaves an entry with
      the record's id, and keeps every existing entry (an existing entry for
      the same id is kept, not replaced). */
  lemma PrependIfAbsentKeepsIdsDistinct(cs: seq<Conversation>, c: Conversation)
    requires DistinctIds(cs)
    ensures var r := PrependIfAbsent(cs, c);
      DistinctIds(r) && HasId(r, c.id) && |r| <= |cs| + 1 &&
      (forall i :: 0 <= i < |cs| ==> cs[i] in r) &&
      (HasId(cs, c.id) ==> r == cs)
  {
    var r := PrependIfAbsent(cs, c);
    if !HasId(cs, c.id) {
      forall i, j | 0 <= i < j < |r| ensures r[i].id != r[j].id {
        if i == 0 {
          assert r[j] == cs[j - 1] && Ids(cs)[j - 1] == cs[j - 1].id;
        } else {
          assert r[i] == cs[i - 1] && r[j] == cs[j - 1];
        }
      }
      assert r[0] == c && Ids(r)[0] == c.id;
      forall i | 0 <= i < |cs| ensures cs[i] in r {
        assert r[i + 1] == cs[i];
      }
    }
  }

  /** The counters after `setActiveConversation(c)`: `c`'s counter becomes 0
      when `c` is a conversation, and nothing changes for `null`. */
  function ResetUnread(counts: map<Id, nat>, c: Option<Conversation>): map<Id, nat> {
    if c.Some? then counts[c.value.id := 0] else counts
  }

  /** The counters after `receiveMessage(m)` with `active` open: the message's
      conversation gains one unread unless it is the active one. */
  function UnreadAfterArrival(counts: map<Id, nat>, active: Option<Conversation>, m: Message): map<Id, nat> {
    if IsActiveId(active, m.conversationId) then counts
    else counts[m.conversationId := CountOf(counts, m.conversationId) + 1]
  }

  /** Opening a conversation zeroes its counter and no other. */
  lemma ResetUnreadTouchesOnlyOpened(counts: map<Id, nat>, c: Option<Conversation>, id: Id)
    ensures CountOf(ResetUnread(counts, c), id) ==
      if IsActiveId(c, id) then 0 else CountOf(counts, id)
  {
  }

  /** An arrival adds exactly one to its own conversation's counter when that
      conversation is not open, and changes no counter otherwise. */
  lemma ArrivalBumpsOnlyItsConversation(counts: map<Id, nat>, active: Option<Conversation>, m: Message, id: Id)
    ensures CountOf(UnreadAfterArrival(counts, active, m), id) ==
      if id == m.conversationId && !IsActiveId(active, id) then CountOf(counts, id) + 1
      else CountOf(counts, id)
  {
  }

  class Store {
    var conversations: seq<Conversation>
    var activeConversation: Option<Conversation>
    var messages: seq<Message>
    var unreadCounts: map<Id, nat>
    /** conversation id -> the typing sender's name, or `None` for `null`. */
    var isTyping: map<Id, Option<string>>
    var loadingMessages: bool

    constructor ()
      ensures conversations == [] && activeConversation == None && messages == []
      ensures unreadCounts == map[] && isTyping == map[] && !loadingMessages
    {
      conversations := [];
      activeConversation := None;
      messages := [];
      unreadCounts := map[];
      isTyping := map[];
      loadingMessages := false;
    }

    /** `fetchConversations`: the fetched list replaces the cached one; the
        counters and typing signals survive; a failed request changes nothing. */
    method FetchConversations(response: Option<seq<Conversation>>)
      modifies this
      ensures conversations == if response.Some? then response.value else old(conversations)
      ensures activeConversation == old(activeConversation) && messages == old(messages)
      ensures unreadCounts == old(unreadCounts) && isTyping == old(isTyping)
      ensures loadingMessages == old(loadingMessages)
    {
      if response.Some? {
        conversations := response.value;
      }
    }

    /** `setActiveConversation(c)`: `c` becomes active and, when it is a
        conversation, its unread counter becomes 0; nothing else changes. */
    method SetActiveConversation(c: Option<Conversation>)
      modifies this
      ensures activeConversation == c
      ensures unreadCounts == ResetUnread(old(unreadCounts), c)
      ensures c.Some? ==> c.value.id in unreadCounts && unreadCounts[c.value.id] == 0
      ensures forall id :: id in old(unreadCounts) && !IsActiveId(c, id) ==>
        id in unreadCounts && unreadCounts[id] == old(unreadCounts)[id]
      ensures conversations == old(conversations) && messages == old(messages)
      ensures isTyping == old(isTyping) && loadingMessages == old(loadingMessages)
    {
      activeConversation := c;
      unreadCounts := ResetUnread(unreadCounts, c);
    }

    /** `startOrOpenConversation(recipientId)`: the record the API returns is
        prepended only when no cached entry has its id, then made active with
        a zero unread counter, and returned. A failed request changes nothing
        and returns nothing. */
    method StartOrOpenConversation(recipientId: Id, response: Option<Conversation>)
      returns (r: Option<Conversation>)
      modifies this
      ensures r == response
      ensures response.None? ==>
        conversations == old(conversations) && activeConversation == old(activeConversation) &&
        unreadCounts == old(unreadCounts)
      ensures response.Some? ==>
        conversations == PrependIfAbsent(old(conversations), response.value) &&
        activeConversation == response &&
        unreadCounts == old(unreadCounts)[response.value.id := 0]
      ensures DistinctIds(old(conversations)) ==> DistinctIds(conversations)
      ensures messages == old(messages) && isTyping == old(isTyping)
      ensures loadingMessages == old(loadingMessages)
    {
      if response.None? {
        return None;
      }
      var data := response.value;
      if DistinctIds(conversations) {
        PrependIfAbsentKeepsIdsDistinct(conversations, data);
      }
      if !HasId(conversations, data.id) {
        conversations := [data] + conversations;
      }
      SetActiveConversation(Some(data));
      r := Some(data);
    }

    /** The synchronous first step of `fetchMessages`: the loading flag goes up. */
    method BeginFetchMessages()
      modifies this
      ensures loadingMessages
      ensures conversations == old(conversations) && activeConversation == old(activeConversation)
      ensures messages == old(messages) && unreadCounts == old(unreadCounts)
      ensures isTyping == old(isTyping)
    {
      loadingMessages := true;
    }

    /** The settling step of `fetchMessages`: success replaces the messages
        wholesale, failure keeps the previous ones; the flag goes down either way. */
    method SettleFetchMessages(response: Option<seq<Message>>)
      modifies this
      ensures !loadingMessages
      ensures messages == if response.Some? then response.value else old(messages)
      ensures conversations == old(conversations) && activeConversation == old(activeConversation)
      ensures unreadCounts == old(unreadCounts) && isTyping == old(isTyping)
    {
      if response.Some? {
        messages := response.value;
      }
      loadingMessages := false;
    }

    /** `fetchMessages(conversationId)` from start to settlement. */
    method FetchMessages(conversationId: Id, response: Option<seq<Message>>)
      modifies this
      ensures !loadingMessages
      ensures messages == if response.Some? then response.value else old(messages)
      ensures conversations == old(conversations) && activeConversation == old(activeConversation)
      ensures unreadCounts == old(unreadCounts) && isTyping == old(isTyping)
    {
      BeginFetchMessages();
      SettleFetchMessages(response);
    }

    /** `sendMessage(conversationId, content)`: on success the server's record
        is appended (whatever conversation is active), the entries with id
        `conversationId` take it as their last message, and it is returned; on
        failure nothing changes and nothing is returned. */
    method SendMessage(conversationId: Id, content: string, response: Option<Message>)
      returns (r: Option<Message>)
      modifies this
      ensures r == response
      ensures messages == if response.Some? then old(messages) + [response.value] else old(messages)
      ensures conversations ==
        if response.Some? then PatchLastMessage(old(conversations), conversationId, response.value)
        else old(conversations)
      ensures activeConversation == old(activeConversation) && unreadCounts == old(unreadCounts)
      ensures isTyping == old(isTyping) && loadingMessages == old(loadingMessages)
    {
      if response.None? {
        return None;
      }
      var data := response.value;
      messages := messages + [data];
      conversations := PatchLastMessage(conversations, conversationId, data);
      r := Some(data);
    }

    /** `receiveMessage(m)`: a message for the active conversation is appended
        and the counters are untouched; any other message leaves the messages
        alone and bumps its conversation's counter. Either way the matching
        list entries take it as their last message, without any reordering. */
    method ReceiveMessage(m: Message)
      modifies this
      ensures IsActiveId(old(activeConversation), m.conversationId) ==>
        messages == old(messages) + [m] && unreadCounts == old(unreadCounts)
      ensures !IsActiveId(old(activeConversation), m.conversationId) ==>
        messages == old(messages) &&
        unreadCounts == old(unreadCounts)[m.conversationId := CountOf(old(unreadCounts), m.conversationId) + 1]
      ensures unreadCounts == UnreadAfterArrival(old(unreadCounts), old(activeConversation), m)
      ensures conversations == PatchLastMessage(old(conversations), m.conversationId, m)
      ensures activeConversation == old(activeConversation)
      ensures isTyping == old(isTyping) && loadingMessages == old(loadingMessages)
    {
      if IsActiveId(activeConversation, m.conversationId) {
        messages := messages + [m];
      } else {
        unreadCounts := unreadCounts[m.conversationId := CountOf(unreadCounts, m.conversationId) + 1];
      }
      conversations := PatchLastMessage(conversations, m.conversationId, m);
    }

    /** `setTyping(conversationId, value)`: exactly that key changes. */
    method SetTyping(conversationId: Id, value: Option<string>)
      modifies this
      ensures isTyping == old(isTyping)[conversationId := value]
      ensures conversations == old(conversations) && activeConversation == old(activeConversation)
      ensures messages == old(messages) && unreadCounts == old(unreadCounts)
      ensures loadingMessages == old(loadingMessages)
    {
      isTyping := isTyping[conversationId := value];
    }
  }
}
