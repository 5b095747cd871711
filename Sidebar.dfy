/** The conversation list's display rules: which participant a row shows, its
    avatar, the unread badge, the last-message preview or typing notice, and
    whether the row is the active one. All of them are pure. */
module Sidebar {
  import opened Wire
  import opened Text
  import opened Avatar
  import opened ChatStore

  /** `getOtherParticipant`: the first participant who is not the user. */
  function OtherParticipant(ps: seq<Participant>, userId: Id): (p: Option<Participant>)
    ensures p.None? <==> forall i :: 0 <= i < |ps| ==> ps[i].id == userId
    ensures p.Some? ==>
      p.value.id != userId &&
      exists i :: 0 <= i < |ps| && ps[i] == p.value && forall j :: 0 <= j < i ==> ps[j].id == userId
  {
    if ps == [] then None
    else if ps[0].id != userId then Some(ps[0])
    else
      var rest := OtherParticipant(ps[1..], userId);
      assert forall i :: 1 <= i < |ps| ==> ps[i] == ps[1..][i - 1];
      rest
  }

  /** The unread badge for a counter: none at zero, the count itself up to
      nine, and "9+" above. */
  function Badge(count: nat): (b: Option<string>)
    ensures b.Some? <==> count > 0
    ensures count > 9 ==> b == Some("9+")
    ensures 0 < count <= 9 ==> b.Some? && |b.value| == 1 && IsDigits(b.value)
  {
    if count == 0 then None
    else if count > 9 then Some("9+")
    else Some(DecimalString(count))
  }

  /** A badge below the cap shows exactly the counter, and every badge is at
      most two characters wide. */
  lemma BadgeShowsCount(count: nat)
    ensures Badge(count).Some? ==> |Badge(count).value| <= 2
    ensures 0 < count <= 9 ==> DecimalValue(Badge(count).value) == count
  {
    if 0 < count <= 9 {
      DecimalRoundTrip(count);
    }
  }

  /** The longest preview shown before the ellipsis. */
  const PreviewLength: nat := 32

  /** The last-message line of a row. */
  function Preview(last: Option<Message>): (p: string)
    ensures last.None? ==> p == "No messages yet"
    ensures last.Some? && |last.value.content| <= PreviewLength ==> p == last.value.content
    ensures last.Some? && |last.value.content| > PreviewLength ==>
      |p| == PreviewLength + 1 && p[..PreviewLength] == last.value.content[..PreviewLength] && p[PreviewLength] == '…'
  {
    if last.None? then "No messages yet"
    else
      var content := last.value.content;
      if |content| > PreviewLength then content[..PreviewLength] + "…" else content
  }

  /** A preview never runs past 33 characters, and always starts with the
      message it previews. */
  lemma PreviewIsBoundedPrefix(m: Message)
    ensures |Preview(Some(m))| <= PreviewLength + 1
    ensures var n := if |m.content| < PreviewLength then |m.content| else PreviewLength;
      |Preview(Some(m))| >= n && Preview(Some(m))[..n] == m.content[..n]
  {
  }

  /** `isTyping[id]` is truthy: a name is stored and it is not empty. */
  predicate TypingShown(typing: map<Id, Option<string>>, id: Id) {
    id in typing && typing[id].Some? && typing[id].value != []
  }

  /** The line under a row's name: the typing notice wins over the preview. */
  function Status(typing: map<Id, Option<string>>, c: Conversation): (s: string)
    ensures TypingShown(typing, c.id) ==> s == "typing..."
    ensures !TypingShown(typing, c.id) ==> s == Preview(c.lastMessage)
  {
    if TypingShown(typing, c.id) then "typing..." else Preview(c.lastMessage)
  }

  /** After 'stop typing' the row shows its preview again. */
  lemma StopTypingRestoresPreview(typing: map<Id, Option<string>>, c: Conversation)
    ensures Status(typing[c.id := None], c) == Preview(c.lastMessage)
  {
  }

  /** The second initial: the first character of the second space-separated
      word, upper-cased, or nothing when there is no such character. */
  function SecondInitial(name: string): (r: string)
    ensures |r| <= 1
  {
    var words := Split(name, ' ');
    if |words| >= 2 && |words[1]| > 0 then [UpperAscii(words[1][0])] else []
  }

  /** The row avatar's text. `name[0]` of an empty name is undefined and the
      render throws; that case is `None`. */
  function SidebarInitials(name: string): (r: Option<string>)
    ensures r.Some? <==> |name| > 0
    ensures r.Some? ==> 1 <= |r.value| <= 2 && r.value[0] == UpperAscii(name[0])
  {
    if name == [] then None else Some([UpperAscii(name[0])] + SecondInitial(name))
  }

  /** A one-word name gives one initial. */
  lemma OneWordOneInitial(name: string)
    requires |name| > 0 && ' ' !in name
    ensures SidebarInitials(name) == Some([UpperAscii(name[0])])
  {
    SplitSeparatorFree(name, ' ');
    assert SecondInitial(name) == [];
    assert [UpperAscii(name[0])] + SecondInitial(name) == [UpperAscii(name[0])];
  }

  /** "First Second ...": the initials are the upper-cased first characters
      of the two words, whatever follows. */
  lemma TwoWordsTwoInitials(first: string, second: string, rest: string)
    requires |first| > 0 && ' ' !in first
    requires |second| > 0 && second[0] != ' '
    ensures SidebarInitials(first + " " + second + rest) ==
      Some([UpperAscii(first[0]), UpperAscii(second[0])])
  {
    var name := first + " " + second + rest;
    assert name == first + [' '] + (second + rest);
    SplitPrefix(first, second + rest, ' ');
    FirstWordStartsLikeText(second + rest, ' ');
    assert Split(name, ' ')[1] == Split(second + rest, ' ')[0];
    assert SecondInitial(name) == [UpperAscii(second[0])];
    assert name[0] == first[0];
    assert [UpperAscii(name[0])] + SecondInitial(name) == [UpperAscii(first[0]), UpperAscii(second[0])];
  }

  /** The first piece of a split starts with the text's first character when
      that is not the separator. */
  lemma FirstWordStartsLikeText(s: string, sep: char)
    requires |s| > 0 && s[0] != sep
    ensures |Split(s, sep)[0]| > 0 && Split(s, sep)[0][0] == s[0]
  {
  }

  /** One rendered entry of the conversation list. */
  datatype Row = Row(
    conversationId: Id,
    name: string,
    initials: Option<string>,
    color: Option<string>,
    status: string,
    badge: Option<string>,
    isActive: bool)

  /** The entry for conversation `c`, or none when it has no other participant. */
  function RowFor(c: Conversation, userId: Id, active: Option<Conversation>,
                  counts: map<Id, nat>, typing: map<Id, Option<string>>): (r: Option<Row>)
    ensures r.None? <==> OtherParticipant(c.participants, userId).None?
    ensures r.Some? ==>
      var other := OtherParticipant(c.participants, userId).value;
      r.value.conversationId == c.id && r.value.name == other.name &&
      r.value.initials == SidebarInitials(other.name) && r.value.color == AvatarColor(other.name) &&
      r.value.status == Status(typing, c) && r.value.badge == Badge(CountOf(counts, c.id)) &&
      (r.value.isActive <==> active.Some? && active.value.id == c.id)
  {
    match OtherParticipant(c.participants, userId)
    case None => None
    case Some(other) =>
      Some(Row(c.id, other.name, SidebarInitials(other.name), AvatarColor(other.name),
               Status(typing, c), Badge(CountOf(counts, c.id)), IsActiveId(active, c.id)))
  }

  /** The list: one entry per conversation that has another participant, in
      the store's order. */
  function Rows(cs: seq<Conversation>, userId: Id, active: Option<Conversation>,
                counts: map<Id, nat>, typing: map<Id, Option<string>>): (rows: seq<Row>)
    ensures |rows| <= |cs|
    ensures forall r :: r in rows ==> exists c :: c in cs && RowFor(c, userId, active, counts, typing) == Some(r)
    ensures forall c :: c in cs && RowFor(c, userId, active, counts, typing).Some? ==>
      RowFor(c, userId, active, counts, typing).value in rows
  {
    if cs == [] then []
    else
      var rest := Rows(cs[1..], userId, active, counts, typing);
      assert forall c :: c in cs[1..] ==> c in cs;
      match RowFor(cs[0], userId, active, counts, typing)
      case None => rest
      case Some(r) => [r] + rest
  }

  /** A list of one conversation renders as its row, or as nothing. */
  lemma RowsSingle(c: Conversation, userId: Id, active: Option<Conversation>,
                   counts: map<Id, nat>, typing: map<Id, Option<string>>)
    ensures Rows([c], userId, active, counts, typing) ==
      if RowFor(c, userId, active, counts, typing).Some? then [RowFor(c, userId, active, counts, typing).value] else []
  {
    assert [c][1..] == [];
  }

  /** The list renders piecewise: the rows of two consecutive stretches of
      conversations are the rows of the first followed by those of the
      second, so the rows keep the store's order, one per conversation. */
  lemma {:induction false} RowsConcat(a: seq<Conversation>, b: seq<Conversation>, userId: Id,
                                      active: Option<Conversation>, counts: map<Id, nat>,
                                      typing: map<Id, Option<string>>)
    ensures Rows(a + b, userId, active, counts, typing) ==
      Rows(a, userId, active, counts, typing) + Rows(b, userId, active, counts, typing)
  {
    if a == [] {
      assert a + b == b;
    } else {
      assert (a + b)[0] == a[0];
      assert (a + b)[1..] == a[1..] + b;
      RowsConcat(a[1..], b, userId, active, counts, typing);
    }
  }

  /** The conversation ids of the rows, top to bottom. */
  function RowIds(rows: seq<Row>): (ids: seq<Id>)
    ensures |ids| == |rows|
    ensures forall i :: 0 <= i < |rows| ==> ids[i] == rows[i].conversationId
  {
    if rows == [] then [] else [rows[0].conversationId] + RowIds(rows[1..])
  }

  /** The first conversation contributes its id exactly when it has another
      participant; the rest follow. */
  lemma RowIdsCons(cs: seq<Conversation>, userId: Id, active: Option<Conversation>,
                   counts: map<Id, nat>, typing: map<Id, Option<string>>)
    requires cs != []
    ensures RowIds(Rows(cs, userId, active, counts, typing)) ==
      (if OtherParticipant(cs[0].participants, userId).Some? then [cs[0].id] else []) +
      RowIds(Rows(cs[1..], userId, active, counts, typing))
  {
    var rest := Rows(cs[1..], userId, active, counts, typing);
    var r := RowFor(cs[0], userId, active, counts, typing);
    if r.Some? {
      assert Rows(cs, userId, active, counts, typing) == [r.value] + rest;
      assert ([r.value] + rest)[1..] == rest;
    } else {
      assert Rows(cs, userId, active, counts, typing) == rest;
    }
  }

  /** Which conversations get a row, and in what order, depends only on each
      entry's id and participants: last messages, counters, typing and the
      active conversation change what a row shows, never where it is. */
  lemma {:induction false} RowIdsFollowParticipants(
      cs: seq<Conversation>, ds: seq<Conversation>, userId: Id,
      active: Option<Conversation>, counts: map<Id, nat>, typing: map<Id, Option<string>>,
      active': Option<Conversation>, counts': map<Id, nat>, typing': map<Id, Option<string>>)
    requires |cs| == |ds|
    requires forall i :: 0 <= i < |cs| ==> cs[i].id == ds[i].id && cs[i].participants == ds[i].participants
    ensures RowIds(Rows(cs, userId, active, counts, typing)) == RowIds(Rows(ds, userId, active', counts', typing'))
  {
    if cs != [] {
      assert forall i :: 0 <= i < |cs[1..]| ==> cs[1..][i] == cs[i + 1] && ds[1..][i] == ds[i + 1];
      RowIdsFollowParticipants(cs[1..], ds[1..], userId, active, counts, typing, active', counts', typing');
      RowIdsCons(cs, userId, active, counts, typing);
      RowIdsCons(ds, userId, active', counts', typing');
    }
  }

  /** A message arriving for any conversation leaves the list's rows in the
      same order: the store patches the entry in place rather than moving it
      to the top, whatever happens to the counters and typing notices. */
  lemma ArrivalKeepsRowOrder(cs: seq<Conversation>, id: Id, m: Message, userId: Id,
                             active: Option<Conversation>, counts: map<Id, nat>,
                             typing: map<Id, Option<string>>,
                             counts': map<Id, nat>, typing': map<Id, Option<string>>)
    ensures RowIds(Rows(PatchLastMessage(cs, id, m), userId, active, counts', typing')) ==
      RowIds(Rows(cs, userId, active, counts, typing))
  {
    var ps := PatchLastMessage(cs, id, m);
    assert forall i :: 0 <= i < |cs| ==> ps[i].id == Ids(ps)[i] == Ids(cs)[i] == cs[i].id;
    RowIdsFollowParticipants(ps, cs, userId, active, counts', typing', active, counts, typing);
  }

  /** No id occurs twice. */
  predicate NoDuplicates(ids: seq<Id>) {
    forall i, j :: 0 <= i < j < |ids| ==> ids[i] != ids[j]
  }

  /** Every row is for a listed conversation. */
  lemma {:induction false} RowIdsWithin(cs: seq<Conversation>, userId: Id, active: Option<Conversation>,
                                        counts: map<Id, nat>, typing: map<Id, Option<string>>)
    ensures forall x :: x in RowIds(Rows(cs, userId, active, counts, typing)) ==> x in Ids(cs)
  {
    if cs != [] {
      RowIdsWithin(cs[1..], userId, active, counts, typing);
      RowIdsCons(cs, userId, active, counts, typing);
      assert Ids(cs) == [cs[0].id] + Ids(cs[1..]);
    }
  }

  /** The first of distinctly numbered conversations is not among the rest. */
  lemma FirstIdNotInRest(cs: seq<Conversation>)
    requires cs != [] && DistinctIds(cs)
    ensures cs[0].id !in Ids(cs[1..])
  {
    forall k | 0 <= k < |Ids(cs[1..])|
      ensures Ids(cs[1..])[k] != cs[0].id
    {
      assert Ids(cs[1..])[k] == cs[k + 1].id;
    }
  }

  /** Putting at most one new id in front of duplicate-free ids keeps them so. */
  lemma ConsNoDuplicates(head: seq<Id>, tail: seq<Id>)
    requires |head| <= 1 && NoDuplicates(tail)
    requires forall x :: x in head ==> x !in tail
    ensures NoDuplicates(head + tail)
  {
    var ids := head + tail;
    forall i, j | 0 <= i < j < |ids|
      ensures ids[i] != ids[j]
    {
      if i < |head| {
        assert ids[i] in head && ids[j] == tail[j - |head|];
      } else {
        assert ids[i] == tail[i - |head|] && ids[j] == tail[j - |head|];
      }
    }
  }

  /** Rows of conversations with distinct ids have distinct ids. */
  lemma {:induction false} RowIdsDistinct(cs: seq<Conversation>, userId: Id, active: Option<Conversation>,
                                          counts: map<Id, nat>, typing: map<Id, Option<string>>)
    requires DistinctIds(cs)
    ensures NoDuplicates(RowIds(Rows(cs, userId, active, counts, typing)))
  {
    if cs != [] {
      assert DistinctIds(cs[1..]);
      RowIdsDistinct(cs[1..], userId, active, counts, typing);
      RowIdsWithin(cs[1..], userId, active, counts, typing);
      RowIdsCons(cs, userId, active, counts, typing);
      FirstIdNotInRest(cs);
      var head: seq<Id> := if OtherParticipant(cs[0].participants, userId).Some? then [cs[0].id] else [];
      ConsNoDuplicates(head, RowIds(Rows(cs[1..], userId, active, counts, typing)));
    }
  }

  /** With distinct conversation ids, at most one row is marked active. */
  lemma AtMostOneActiveRow(cs: seq<Conversation>, userId: Id, active: Option<Conversation>,
                           counts: map<Id, nat>, typing: map<Id, Option<string>>)
    requires DistinctIds(cs)
    ensures var rows := Rows(cs, userId, active, counts, typing);
      forall i, j :: 0 <= i < j < |rows| ==> !(rows[i].isActive && rows[j].isActive)
  {
    var rows := Rows(cs, userId, active, counts, typing);
    RowIdsDistinct(cs, userId, active, counts, typing);
    forall i, j | 0 <= i < j < |rows|
      ensures !(rows[i].isActive && rows[j].isActive)
    {
      assert RowIds(rows)[i] != RowIds(rows)[j];
      ActiveRowIsTheActiveConversation(cs, userId, active, counts, typing, rows[i]);
      ActiveRowIsTheActiveConversation(cs, userId, active, counts, typing, rows[j]);
    }
  }

  /** A row is marked active exactly when it is the active conversation's. */
  lemma ActiveRowIsTheActiveConversation(cs: seq<Conversation>, userId: Id, active: Option<Conversation>,
                                         counts: map<Id, nat>, typing: map<Id, Option<string>>, r: Row)
    requires r in Rows(cs, userId, active, counts, typing)
    ensures r.isActive <==> active.Some? && r.conversationId == active.value.id
  {
  }
}
