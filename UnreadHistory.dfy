/** Unread bookkeeping over a whole session. A log records, in order, every
    `setActiveConversation` and `receiveMessage` call the store handled;
    replaying it with the store's own counter updates gives the counters, and
    the theorem below says what they count: a conversation's counter is the
    number of its messages that arrived while it was not the active one, since
    it was last opened (or, if it never was, on top of its starting value). */
module UnreadHistory {
  import opened Wire
  import opened ChatStore

  datatype Activity = Opened(conversation: Option<Conversation>) | Arrived(message: Message)

  datatype Session = Session(active: Option<Conversation>, counts: map<Id, nat>)

  /** The store's active conversation and counters after the logged calls, as
      `Store.SetActiveConversation` and `Store.ReceiveMessage` update them. */
  function Replay(start: Session, log: seq<Activity>): Session {
    if log == [] then start
    else
      var before := Replay(start, log[..|log| - 1]);
      match log[|log| - 1]
      case Opened(c) => Session(c, ResetUnread(before.counts, c))
      case Arrived(m) => Session(before.active, UnreadAfterArrival(before.counts, before.active, m))
  }

  /** The conversation that is active just before entry `i` of the log: the
      most recent one opened before it, or the starting one. */
  function ActiveBefore(start: Option<Conversation>, log: seq<Activity>, i: nat): Option<Conversation>
    requires i <= |log|
  {
    if i == 0 then start
    else if log[i - 1].Opened? then log[i - 1].conversation
    else ActiveBefore(start, log, i - 1)
  }

  /** Entry `i` is a message for `id` that arrived while `id` was not active. */
  predicate MissedAt(start: Option<Conversation>, log: seq<Activity>, i: nat, id: Id)
    requires i < |log|
  {
    log[i].Arrived? && log[i].message.conversationId == id &&
    !IsActiveId(ActiveBefore(start, log, i), id)
  }

  /** Entry `i` opens conversation `id`. */
  predicate OpensAt(log: seq<Activity>, i: nat, id: Id)
    requires i < |log|
  {
    log[i].Opened? && IsActiveId(log[i].conversation, id)
  }

  /** The number of entries in `[from, to)` that are missed messages for `id`. */
  function CountMissed(start: Option<Conversation>, log: seq<Activity>, id: Id, from: nat, to: nat): nat
    requires from <= to <= |log|
  {
    if from == to then 0
    else CountMissed(start, log, id, from, to - 1) + (if MissedAt(start, log, to - 1, id) then 1 else 0)
  }

  /** The index of the last entry before `to` that opens `id`, if any. */
  function LastOpened(log: seq<Activity>, id: Id, to: nat): (k: Option<nat>)
    requires to <= |log|
    ensures k.Some? ==> k.value < to && OpensAt(log, k.value, id)
    ensures k.Some? ==> forall j :: k.value < j < to ==> !OpensAt(log, j, id)
    ensures k.None? ==> forall j :: 0 <= j < to ==> !OpensAt(log, j, id)
  {
    if to == 0 then None
    else if OpensAt(log, to - 1, id) then Some(to - 1)
    else LastOpened(log, id, to - 1)
  }

  /** What the counter of `id` should read after the log. */
  function ExpectedUnread(start: Session, log: seq<Activity>, id: Id): nat {
    match LastOpened(log, id, |log|)
    case None => CountOf(start.counts, id) + CountMissed(start.active, log, id, 0, |log|)
    case Some(k) => CountMissed(start.active, log, id, k + 1, |log|)
  }

  /** Entries of a prefix see the same active conversation as in the whole log. */
  lemma {:induction false} ActiveBeforePrefix(start: Option<Conversation>, log: seq<Activity>, n: nat, i: nat)
    requires i <= n <= |log|
    ensures ActiveBefore(start, log[..n], i) == ActiveBefore(start, log, i)
  {
    if i > 0 {
      ActiveBeforePrefix(start, log, n, i - 1);
      assert log[..n][i - 1] == log[i - 1];
    }
  }

  /** Counting missed messages inside a prefix does not depend on what follows it. */
  lemma {:induction false} CountMissedPrefix(start: Option<Conversation>, log: seq<Activity>, id: Id, n: nat, from: nat, to: nat)
    requires from <= to <= n <= |log|
    ensures CountMissed(start, log[..n], id, from, to) == CountMissed(start, log, id, from, to)
  {
    if from < to {
      CountMissedPrefix(start, log, id, n, from, to - 1);
      ActiveBeforePrefix(start, log, n, to - 1);
      assert log[..n][to - 1] == log[to - 1];
    }
  }

  /** Within a prefix, the last opening of `id` is the same as in the whole log. */
  lemma {:induction false} LastOpenedPrefix(log: seq<Activity>, id: Id, n: nat, to: nat)
    requires to <= n <= |log|
    ensures LastOpened(log[..n], id, to) == LastOpened(log, id, to)
  {
    if to > 0 {
      assert log[..n][to - 1] == log[to - 1];
      LastOpenedPrefix(log, id, n, to - 1);
    }
  }

  /** Replaying the log leaves the most recently opened conversation active. */
  lemma {:induction false} ReplayActive(start: Session, log: seq<Activity>)
    ensures Replay(start, log).active == ActiveBefore(start.active, log, |log|)
  {
    if log != [] {
      var n := |log|;
      ReplayActive(start, log[..n - 1]);
      ActiveBeforePrefix(start.active, log, n - 1, n - 1);
    }
  }

  /** The unread theorem: after any sequence of opens and arrivals, the counter
      of `id` is the number of its messages that arrived while it was not
      active since it was last opened; if it was never opened, that number is
      added to its starting counter. */
  lemma {:induction false} UnreadCountsMissedMessages(start: Session, log: seq<Activity>, id: Id)
    ensures CountOf(Replay(start, log).counts, id) == ExpectedUnread(start, log, id)
  {
    if log != [] {
      var n := |log|;
      var p := log[..n - 1];
      var before := Replay(start, p);
      UnreadCountsMissedMessages(start, p, id);
      ReplayActive(start, p);
      ActiveBeforePrefix(start.active, log, n - 1, n - 1);
      assert before.active == ActiveBefore(start.active, log, n - 1);
      LastOpenedPrefix(log, id, n - 1, n - 1);
      match LastOpened(log, id, n - 1) {
        case None =>
          CountMissedPrefix(start.active, log, id, n - 1, 0, n - 1);
        case Some(k) =>
          CountMissedPrefix(start.active, log, id, n - 1, k + 1, n - 1);
      }
    }
  }

  /** Right after a conversation is opened its counter reads zero, whatever came before. */
  lemma OpenedConversationReadsZero(start: Session, log: seq<Activity>, c: Conversation)
    ensures CountOf(Replay(start, log + [Opened(Some(c))]).counts, c.id) == 0
  {
    assert (log + [Opened(Some(c))])[..|log|] == log;
  }

  /** While a conversation stays open, arrivals for it leave its counter at zero. */
  lemma {:induction false} OpenConversationStaysAtZero(start: Session, log: seq<Activity>, c: Conversation, more: seq<Message>)
    requires forall j :: 0 <= j < |more| ==> more[j].conversationId == c.id
    ensures var full := log + [Opened(Some(c))] + seq(|more|, j requires 0 <= j < |more| => Arrived(more[j]));
      CountOf(Replay(start, full).counts, c.id) == 0 && Replay(start, full).active == Some(c)
    decreases |more|
  {
    var arrivals := seq(|more|, j requires 0 <= j < |more| => Arrived(more[j]));
    var full := log + [Opened(Some(c))] + arrivals;
    if more == [] {
      assert full == log + [Opened(Some(c))];
      OpenedConversationReadsZero(start, log, c);
    } else {
      var shorter := more[..|more| - 1];
      OpenConversationStaysAtZero(start, log, c, shorter);
      var shorterArrivals := seq(|shorter|, j requires 0 <= j < |shorter| => Arrived(shorter[j]));
      assert full[..|full| - 1] == log + [Opened(Some(c))] + shorterArrivals;
      assert full[|full| - 1] == Arrived(more[|more| - 1]);
    }
  }
}
