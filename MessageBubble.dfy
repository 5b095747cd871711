/** One message in the chat window: whether it is the user's own, the sender
    name and initials shown beside a received message, and which of the two
    bubble layouts is drawn. All of it is pure. */
module MessageBubble {
  import opened Wire
  import opened Text
  import opened Avatar
  import Sidebar

  /** The id of the sender, whether the record carries the populated user or
      only the id. */
  function SenderId(sender: Sender): Id {
    match sender
    case Populated(user) => user.id
    case Unpopulated(userId) => userId
  }

  /** `isSent`: `sender._id` equals the user's id, or the unpopulated sender
      is the user's id itself. */
  predicate IsSent(sender: Sender, userId: Id) {
    match sender
    case Populated(user) => user.id == userId
    case Unpopulated(id) => id == userId
  }

  /** A message is the user's own exactly when its sender id is the user's,
      in either form of the sender field. */
  lemma SentIffOwnSender(sender: Sender, userId: Id)
    ensures IsSent(sender, userId) <==> SenderId(sender) == userId
  {
  }

  /** `senderName`: the populated user's name, otherwise "You". */
  function SenderName(sender: Sender): (name: string)
    ensures sender.Populated? ==> name == sender.user.name
    ensures sender.Unpopulated? ==> name == "You"
  {
    if sender.Populated? then sender.user.name else "You"
  }

  /** `w[0]?.toUpperCase()` inside `join('')`: an empty word gives nothing. */
  function FirstLetter(word: string): (r: string)
    ensures |r| <= 1
    ensures word != [] <==> |r| == 1
    ensures word != [] ==> r[0] == UpperAscii(word[0])
  {
    if word == [] then [] else [UpperAscii(word[0])]
  }

  /** `name.split(' ').slice(0, 2).map(first letter).join('')`. */
  function BubbleInitials(name: string): (r: string) {
    var words := Split(name, ' ');
    var chosen := words[..if |words| < 2 then |words| else 2];
    Concat(seq(|chosen|, i requires 0 <= i < |chosen| => FirstLetter(chosen[i])))
  }

  /** The initials are the first letters of the first two words, each
      dropped when its word is empty; so at most two characters. */
  lemma BubbleInitialsOfWords(name: string)
    ensures var words := Split(name, ' ');
      BubbleInitials(name) ==
        FirstLetter(words[0]) + (if |words| >= 2 then FirstLetter(words[1]) else [])
    ensures |BubbleInitials(name)| <= 2
  {
    var words := Split(name, ' ');
    var chosen := words[..if |words| < 2 then |words| else 2];
    var letters := seq(|chosen|, i requires 0 <= i < |chosen| => FirstLetter(chosen[i]));
    assert Concat(letters[1..]) == (if |words| >= 2 then FirstLetter(words[1]) + Concat(letters[2..]) else []);
    assert Concat(letters) == letters[0] + Concat(letters[1..]);
  }

  /** For a name that does not start with a space, the bubble shows the same
      initials as the conversation list. */
  lemma InitialsAgreeWithSidebar(name: string)
    requires |name| > 0 && name[0] != ' '
    ensures Sidebar.SidebarInitials(name) == Some(BubbleInitials(name))
  {
    BubbleInitialsOfWords(name);
    Sidebar.FirstWordStartsLikeText(name, ' ');
    var words := Split(name, ' ');
    assert FirstLetter(words[0]) == [UpperAscii(name[0])];
    if |words| >= 2 {
      assert Sidebar.SecondInitial(name) == FirstLetter(words[1]);
    } else {
      assert Sidebar.SecondInitial(name) == [];
    }
  }

  /** A name with a leading space: the list shows the space as the first
      initial, the bubble skips the empty first word. */
  lemma InitialsDifferOnLeadingSpace()
    ensures Sidebar.SidebarInitials(" Bo") == Some(" B")
    ensures BubbleInitials(" Bo") == "B"
  {
    assert " Bo" == [] + [' '] + "Bo";
    SplitPrefix([], "Bo", ' ');
    SplitSeparatorFree("Bo", ' ');
    assert Split(" Bo", ' ') == ["", "Bo"];
    BubbleInitialsOfWords(" Bo");
    assert Sidebar.SecondInitial(" Bo") == "B";
    assert UpperAscii(' ') == ' ';
    assert [UpperAscii(' ')] + "B" == " B";
  }

  /** The two layouts: a sent bubble shows the content only; a received one
      adds the avatar (initials on a palette colour) and the sender's name. */
  datatype Bubble =
    | SentBubble(content: string, createdAt: string)
    | ReceivedBubble(initials: string, color: Option<string>, senderName: string,
                     content: string, createdAt: string)

  /** The bubble drawn for message `m` when `userId` is logged in. */
  function Render(m: Message, userId: Id): (b: Bubble)
    ensures b.SentBubble? <==> SenderId(m.sender) == userId
    ensures b.content == m.content && b.createdAt == m.createdAt
    ensures b.ReceivedBubble? ==>
      b.senderName == SenderName(m.sender) &&
      b.initials == BubbleInitials(SenderName(m.sender)) &&
      b.color == AvatarColor(SenderName(m.sender))
  {
    SentIffOwnSender(m.sender, userId);
    if IsSent(m.sender, userId) then SentBubble(m.content, m.createdAt)
    else
      var name := SenderName(m.sender);
      ReceivedBubble(BubbleInitials(name), AvatarColor(name), name, m.content, m.createdAt)
  }

  /** A received message whose sender was not populated is shown under the
      name "You", with initial "Y". */
  lemma UnpopulatedStrangerShowsAsYou(m: Message, userId: Id)
    requires m.sender.Unpopulated? && m.sender.userId != userId
    ensures Render(m, userId).ReceivedBubble?
    ensures Render(m, userId).senderName == "You" && Render(m, userId).initials == "Y"
  {
    SplitSeparatorFree("You", ' ');
    BubbleInitialsOfWords("You");
  }
}
