/** The chat window's composer: the input box, the typing debounce timer and
    the room switch that follows the active conversation. Socket emissions and
    store calls are recorded, in order, in `trace`. Time is a clock in
    milliseconds that only `AdvanceClock` moves; one pending 'stop typing'
    timer at most, as `typingTimeout` holds one. */
module ChatWindow {
  import opened Wire
  import opened Text
  import opened ChatStore

  /** The debounce delay of the 'stop typing' timer, in milliseconds. */
  const StopTypingDelay: nat := 2000

  /** One thing the composer does: an emission on the socket or a store call. */
  datatype Step =
    | Emit(event: Event)
    | CallFetchMessages(conversationId: Id)
    | CallSendMessage(conversationId: Id, content: string)

  /** A scheduled 'stop typing' for `conversationId`, due at clock time `due`. */
  datatype PendingStop = PendingStop(conversationId: Id, due: nat)

  /** `handleSend`'s guard: the input is blank after trimming, or no conversation is open. */
  predicate SendIgnored(input: string, active: Option<Conversation>) {
    Trim(input) == [] || active.None?
  }

  /** The steps of `handleSend` with `response` as the outcome of `sendMessage`. */
  function SendSteps(input: string, active: Option<Conversation>, response: Option<Message>): seq<Step> {
    if SendIgnored(input, active) then []
    else
      var id := active.value.id;
      [Emit(StopTyping(id)), CallSendMessage(id, Trim(input))] +
      (if response.Some? then [Emit(NewMessage(response.value.(conversationId := id)))] else [])
  }

  /** The steps of the conversation-switch effect: the cleanup of the previous
      run leaves the room it joined, then the new run fetches the active
      conversation's messages and joins its room. */
  function SwitchSteps(joined: Option<Id>, active: Option<Conversation>): seq<Step> {
    (if joined.Some? then [Emit(LeaveConversation(joined.value))] else []) +
    (if active.Some? then [CallFetchMessages(active.value.id), Emit(JoinConversation(active.value.id))] else [])
  }

  /** How many 'new message' emissions a sequence of steps holds. */
  function NewMessageCount(steps: seq<Step>): nat {
    if steps == [] then 0
    else
      var last := steps[|steps| - 1];
      NewMessageCount(steps[..|steps| - 1]) + (if last.Emit? && last.event.NewMessage? then 1 else 0)
  }

  /** The rooms held after one more step: a join emission adds its room, a
      leave emission removes it, and any other step keeps them. */
  function HeldAfter(step: Step, held: set<Id>): set<Id> {
    if step.Emit? && step.event.JoinConversation? then held + {step.event.room}
    else if step.Emit? && step.event.LeaveConversation? then held - {step.event.room}
    else held
  }

  /** The conversation rooms the window's socket is in after the steps, from
      its own join and leave emissions. */
  function RoomsHeld(steps: seq<Step>): set<Id> {
    if steps == [] then {}
    else HeldAfter(steps[|steps| - 1], RoomsHeld(steps[..|steps| - 1]))
  }

  function AsSet(room: Option<Id>): set<Id> {
    if room.Some? then {room.value} else {}
  }

  /** Appending a step applies it to the rooms held so far. */
  lemma RoomsHeldSnoc(steps: seq<Step>, last: Step)
    ensures RoomsHeld(steps + [last]) == HeldAfter(last, RoomsHeld(steps))
  {
    assert (steps + [last])[..|steps|] == steps;
  }

  /** A step that neither joins nor leaves a room. */
  predicate KeepsRooms(step: Step) {
    !(step.Emit? && (step.event.JoinConversation? || step.event.LeaveConversation?))
  }

  /** Steps that neither join nor leave leave the rooms held unchanged. */
  lemma {:induction false} RoomsHeldIgnoresOthers(steps: seq<Step>, more: seq<Step>)
    requires forall i :: 0 <= i < |more| ==> KeepsRooms(more[i])
    ensures RoomsHeld(steps + more) == RoomsHeld(steps)
  {
    if more == [] {
      assert steps + more == steps;
    } else {
      var front := more[..|more| - 1];
      RoomsHeldIgnoresOthers(steps, front);
      assert steps + more == (steps + front) + [more[|more| - 1]];
      RoomsHeldSnoc(steps + front, more[|more| - 1]);
    }
  }

  /** The switch effect leaves the window in the active conversation's room
      alone, if it was in the previous one's alone. */
  lemma SwitchMovesRooms(steps: seq<Step>, joined: Option<Id>, active: Option<Conversation>)
    requires RoomsHeld(steps) == AsSet(joined)
    ensures RoomsHeld(steps + SwitchSteps(joined, active)) ==
      AsSet(if active.Some? then Some(active.value.id) else None)
  {
    var left := steps + (if joined.Some? then [Emit(LeaveConversation(joined.value))] else []);
    if joined.Some? {
      RoomsHeldSnoc(steps, Emit(LeaveConversation(joined.value)));
    } else {
      assert left == steps;
    }
    assert RoomsHeld(left) == {};
    if active.Some? {
      var id := active.value.id;
      RoomsHeldSnoc(left, CallFetchMessages(id));
      RoomsHeldSnoc(left + [CallFetchMessages(id)], Emit(JoinConversation(id)));
      assert steps + SwitchSteps(joined, active) == left + [CallFetchMessages(id)] + [Emit(JoinConversation(id))];
    } else {
      assert steps + SwitchSteps(joined, active) == left;
    }
  }

  /** Sending neither joins nor leaves a room. */
  lemma SendKeepsRooms(steps: seq<Step>, input: string, active: Option<Conversation>, response: Option<Message>)
    ensures RoomsHeld(steps + SendSteps(input, active, response)) == RoomsHeld(steps)
  {
    RoomsHeldIgnoresOthers(steps, SendSteps(input, active, response));
  }

  /** Counting 'new message' emissions distributes over concatenation. */
  lemma {:induction false} NewMessageCountConcat(a: seq<Step>, b: seq<Step>)
    ensures NewMessageCount(a + b) == NewMessageCount(a) + NewMessageCount(b)
  {
    if b == [] {
      assert a + b == a;
    } else {
      var front := b[..|b| - 1];
      NewMessageCountConcat(a, front);
      assert (a + b)[..|a + b| - 1] == a + front;
      assert (a + b)[|a + b| - 1] == b[|b| - 1];
    }
  }

  /** Sending does nothing at all exactly when the input is whitespace only or
      no conversation is open. */
  lemma SendGuard(input: string, active: Option<Conversation>, response: Option<Message>)
    ensures SendSteps(input, active, response) == [] <==>
      (forall i :: 0 <= i < |input| ==> IsTrimmable(input[i])) || active.None?
  {
    TrimEmptyIffBlank(input);
  }

  /** A send that passes the guard first emits 'stop typing' for the active
      conversation, then calls `sendMessage` with the trimmed input, which is
      non-blank and has no whitespace at either end; a record that came back
      is then emitted as 'new message', re-addressed to the active
      conversation. */
  lemma SendOrder(input: string, active: Option<Conversation>, response: Option<Message>)
    requires !SendIgnored(input, active)
    ensures var steps := SendSteps(input, active, response); var id := active.value.id;
      |steps| == (if response.Some? then 3 else 2) &&
      steps[0] == Emit(StopTyping(id)) &&
      steps[1] == CallSendMessage(id, Trim(input)) &&
      (response.Some? ==> steps[2] == Emit(NewMessage(response.value.(conversationId := id))))
    ensures Trim(input) != [] && !IsTrimmable(Trim(input)[0]) && !IsTrimmable(Trim(input)[|Trim(input)| - 1])
  {
    TrimSpec(input);
  }

  /** One step counts as a 'new message' emission exactly when it is one. */
  lemma NewMessageCountSingle(step: Step)
    ensures NewMessageCount([step]) == if step.Emit? && step.event.NewMessage? then 1 else 0
  {
    assert [step][..0] == [];
  }

  /** A send that passes the guard emits 'new message' exactly once if a
      record came back, and never otherwise. */
  lemma SendEmitsNewMessageOnce(input: string, active: Option<Conversation>, response: Option<Message>)
    requires !SendIgnored(input, active)
    ensures NewMessageCount(SendSteps(input, active, response)) == if response.Some? then 1 else 0
  {
    var id := active.value.id;
    var stop := [Emit(StopTyping(id))];
    var call := [CallSendMessage(id, Trim(input))];
    NewMessageCountSingle(stop[0]);
    NewMessageCountSingle(call[0]);
    NewMessageCountConcat(stop, call);
    if response.Some? {
      var tail := [Emit(NewMessage(response.value.(conversationId := id)))];
      NewMessageCountSingle(tail[0]);
      NewMessageCountConcat(stop + call, tail);
      assert SendSteps(input, active, response) == stop + call + tail;
    } else {
      assert SendSteps(input, active, response) == stop + call;
    }
  }

  /** A switch between two conversations leaves the old room before it fetches
      and joins the new one. */
  lemma SwitchOrder(previous: Id, next: Conversation)
    ensures SwitchSteps(Some(previous), Some(next)) ==
      [Emit(LeaveConversation(previous)), CallFetchMessages(next.id), Emit(JoinConversation(next.id))]
  {
  }

  class Composer {
    const store: Store
    /** `user.name` of the logged-in user. */
    const userName: string
    var input: string
    var pending: Option<PendingStop>
    var now: nat
    /** The room the last run of the switch effect joined; its cleanup leaves it. */
    var joined: Option<Id>
    var trace: seq<Step>

    /** A pending stop is always due within one debounce delay, and the window
        is in exactly the room of its last switch, or in none. */
    ghost predicate Valid()
      reads this
    {
      (pending.Some? ==> now < pending.value.due <= now + StopTypingDelay) &&
      RoomsHeld(trace) == AsSet(joined)
    }

    constructor (store: Store, userName: string)
      ensures Valid() && this.store == store && this.userName == userName
      ensures input == [] && pending == None && now == 0 && joined == None && trace == []
    {
      this.store := store;
      this.userName := userName;
      input := [];
      pending := None;
      now := 0;
      joined := None;
      trace := [];
    }

    /** The effect that runs when the store's active conversation changes. */
    method SwitchConversation(response: Option<seq<Message>>)
      requires Valid()
      modifies this, store
      ensures Valid()
      ensures trace == old(trace) + SwitchSteps(old(joined), old(store.activeConversation))
      ensures joined == if old(store.activeConversation).Some? then Some(old(store.activeConversation).value.id) else None
      ensures RoomsHeld(trace) == AsSet(joined)
      ensures old(store.activeConversation).Some? ==>
        !store.loadingMessages &&
        store.messages == if response.Some? then response.value else old(store.messages)
      ensures old(store.activeConversation).None? ==>
        store.messages == old(store.messages) && store.loadingMessages == old(store.loadingMessages)
      ensures store.activeConversation == old(store.activeConversation)
      ensures store.conversations == old(store.conversations) && store.unreadCounts == old(store.unreadCounts)
      ensures store.isTyping == old(store.isTyping)
      ensures input == old(input) && pending == old(pending) && now == old(now)
    {
      var active := store.activeConversation;
      if active.Some? {
        store.FetchMessages(active.value.id, response);
      }
      SwitchMovesRooms(trace, joined, active);
      trace := trace + SwitchSteps(joined, active);
      joined := if active.Some? then Some(active.value.id) else None;
    }

    /** The effect's cleanup when the window goes away: it leaves the room it
        joined. A pending 'stop typing' timer is not cancelled. */
    method Unmount()
      requires Valid()
      modifies this
      ensures Valid()
      ensures trace == old(trace) + (if old(joined).Some? then [Emit(LeaveConversation(old(joined).value))] else [])
      ensures joined == None && RoomsHeld(trace) == {}
      ensures input == old(input) && pending == old(pending) && now == old(now)
    {
      if joined.Some? {
        RoomsHeldSnoc(trace, Emit(LeaveConversation(joined.value)));
        trace := trace + [Emit(LeaveConversation(joined.value))];
        joined := None;
      }
    }

    /** `handleSend` with `response` as the outcome of `sendMessage`: nothing
        happens when the guard holds; otherwise the steps of `SendSteps`, the
        store's send, and the input cleared whether or not the send succeeded. */
    method HandleSend(response: Option<Message>)
      requires Valid()
      modifies this, store
      ensures Valid()
      ensures trace == old(trace) + SendSteps(old(input), old(store.activeConversation), response)
      ensures input == if SendIgnored(old(input), old(store.activeConversation)) then old(input) else []
      ensures SendIgnored(old(input), old(store.activeConversation)) ==>
        store.messages == old(store.messages) && store.conversations == old(store.conversations)
      ensures !SendIgnored(old(input), old(store.activeConversation)) ==>
        store.messages == (if response.Some? then old(store.messages) + [response.value] else old(store.messages)) &&
        store.conversations == (if response.Some?
          then PatchLastMessage(old(store.conversations), old(store.activeConversation).value.id, response.value)
          else old(store.conversations))
      ensures store.activeConversation == old(store.activeConversation)
      ensures store.unreadCounts == old(store.unreadCounts)
      ensures store.isTyping == old(store.isTyping) && store.loadingMessages == old(store.loadingMessages)
      ensures pending == old(pending) && now == old(now) && joined == old(joined)
    {
      var active := store.activeConversation;
      if SendIgnored(input, active) {
        return;
      }
      var sent := store.SendMessage(active.value.id, Trim(input), response);
      SendKeepsRooms(trace, input, active, sent);
      trace := trace + SendSteps(input, active, sent);
      input := [];
    }

    /** `handleTyping` with the textarea's new value: the input takes it; with
        an open conversation, 'typing' with the user's name is emitted (also
        for an empty value) and the pending stop is replaced by one due after
        the debounce delay. */
    method HandleTyping(value: string)
      requires Valid()
      modifies this
      ensures Valid()
      ensures input == value
      ensures store.activeConversation.None? ==> trace == old(trace) && pending == old(pending)
      ensures store.activeConversation.Some? ==>
        trace == old(trace) + [Emit(Typing(store.activeConversation.value.id, userName))] &&
        pending == Some(PendingStop(store.activeConversation.value.id, now + StopTypingDelay))
      ensures now == old(now) && joined == old(joined)
    {
      input := value;
      if store.activeConversation.None? {
        return;
      }
      var id := store.activeConversation.value.id;
      RoomsHeldSnoc(trace, Emit(Typing(id, userName)));
      trace := trace + [Emit(Typing(id, userName))];
      pending := Some(PendingStop(id, now + StopTypingDelay));
    }

    /** `handleKeyDown`: Enter without Shift sends; any other key does nothing. */
    method HandleKeyDown(key: string, shiftKey: bool, response: Option<Message>)
      requires Valid()
      modifies this, store
      ensures Valid()
      ensures key == "Enter" && !shiftKey ==>
        trace == old(trace) + SendSteps(old(input), old(store.activeConversation), response) &&
        input == if SendIgnored(old(input), old(store.activeConversation)) then old(input) else []
      ensures key == "Enter" && !shiftKey && SendIgnored(old(input), old(store.activeConversation)) ==>
        store.messages == old(store.messages) && store.conversations == old(store.conversations)
      ensures key == "Enter" && !shiftKey && !SendIgnored(old(input), old(store.activeConversation)) ==>
        store.messages == (if response.Some? then old(store.messages) + [response.value] else old(store.messages)) &&
        store.conversations == (if response.Some?
          then PatchLastMessage(old(store.conversations), old(store.activeConversation).value.id, response.value)
          else old(store.conversations))
      ensures !(key == "Enter" && !shiftKey) ==>
        trace == old(trace) && input == old(input) &&
        store.messages == old(store.messages) && store.conversations == old(store.conversations)
      ensures store.activeConversation == old(store.activeConversation)
      ensures store.unreadCounts == old(store.unreadCounts)
      ensures store.isTyping == old(store.isTyping) && store.loadingMessages == old(store.loadingMessages)
      ensures pending == old(pending) && now == old(now) && joined == old(joined)
    {
      if key == "Enter" && !shiftKey {
        HandleSend(response);
      }
    }

    /** `ms` milliseconds pass with no keystroke: a pending stop whose time has
        come emits 'stop typing' for the conversation it was scheduled for. */
    method AdvanceClock(ms: nat)
      requires Valid()
      modifies this
      ensures Valid()
      ensures now == old(now) + ms
      ensures old(pending).Some? && old(pending).value.due <= now ==>
        trace == old(trace) + [Emit(StopTyping(old(pending).value.conversationId))] && pending == None
      ensures !(old(pending).Some? && old(pending).value.due <= now) ==>
        trace == old(trace) && pending == old(pending)
      ensures ms >= StopTypingDelay ==> pending == None
      ensures input == old(input) && joined == old(joined)
    {
      now := now + ms;
      if pending.Some? && pending.value.due <= now {
        RoomsHeldSnoc(trace, Emit(StopTyping(pending.value.conversationId)));
        trace := trace + [Emit(StopTyping(pending.value.conversationId))];
        pending := None;
      }
    }
  }
}
