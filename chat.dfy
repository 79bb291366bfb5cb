/**
  * The derived summaries of a chat between two users: the name shown to one of them,
  * how many messages are waiting for a user, and the newest message and its time. The
  * store loads a chat's messages newest first.
  */
module ChatModel {
  import opened Wrappers

  /** `MessageType`: only TEXT is told apart from the others. */
  datatype MessageType = Text | OtherType(name: string)

  /** `MessageState`: only SENT is told apart from the others. */
  datatype MessageState = Sent | OtherState(name: string)

  /** A chat participant: the id as text, and the names, either of which may be null. */
  datatype Person = Person(id: string, firstName: Option<string>, lastName: Option<string>)

  /** A message; `createdAt` is its creation time as a number that grows with time. */
  datatype Message = Message(content: Option<string>, state: MessageState, kind: MessageType,
                             senderId: string, receiverId: string, createdAt: int)

  /** A chat; `messages` is null when the association was not loaded. */
  datatype Chat = Chat(sender: Person, receiver: Person, messages: Option<seq<Message>>)

  /** Java string concatenation of a possibly null text. */
  function ConcatText(s: Option<string>): string
  {
    if s.Some? then s.value else "null"
  }

  /** "first last", as the string concatenation builds it. */
  function FullName(p: Person): string
  {
    ConcatText(p.firstName) + " " + ConcatText(p.lastName)
  }

  /** `getChatName(senderId)`: the name of the receiver when `senderId` is the chat's
      sender, the name of the sender otherwise. */
  function ChatName(c: Chat, senderId: string): (r: string)
    ensures r == FullName(c.receiver) || r == FullName(c.sender)
  {
    if c.sender.id == senderId then FullName(c.receiver) else FullName(c.sender)
  }

  /** Each of the two participants sees the other one's name. */
  lemma ChatNameIsOtherParty(c: Chat, viewer: string)
    requires c.sender.id != c.receiver.id
    requires viewer == c.sender.id || viewer == c.receiver.id
    ensures var other := if viewer == c.sender.id then c.receiver else c.sender;
      ChatName(c, viewer) == FullName(other) && other.id != viewer
  {
  }

  /** Whether a message is waiting for `userId`: addressed to them and still SENT. */
  predicate IsUnreadFor(m: Message, userId: string)
  {
    m.receiverId == userId && m.state == Sent
  }

  /** The messages waiting for `userId`, in order. */
  function UnreadOf(ms: seq<Message>, userId: string): (r: seq<Message>)
    ensures |r| <= |ms|
  {
    if ms == [] then []
    else UnreadOf(ms[..|ms| - 1], userId) + (if IsUnreadFor(ms[|ms| - 1], userId) then [ms[|ms| - 1]] else [])
  }

  /** `getUnreadMessagesCount(userId)`: how many messages are waiting for `userId`; the
      stream over a null list throws (the error). */
  function UnreadCount(c: Chat, userId: string): (r: Result<nat>)
    ensures r.Ok? <==> c.messages.Some?
    ensures r.Ok? ==> r.value <= |c.messages.value|
  {
    if c.messages.None? then Err("messages not loaded")
    else Ok(|UnreadOf(c.messages.value, userId)|)
  }

  /** The filter keeps exactly the unread messages. */
  lemma {:induction false} UnreadOfExactly(ms: seq<Message>, userId: string, m: Message)
    ensures m in UnreadOf(ms, userId) <==> m in ms && IsUnreadFor(m, userId)
    ensures forall k :: 0 <= k < |UnreadOf(ms, userId)| ==> IsUnreadFor(UnreadOf(ms, userId)[k], userId)
  {
    if ms != [] {
      UnreadOfExactly(ms[..|ms| - 1], userId, m);
      assert ms == ms[..|ms| - 1] + [ms[|ms| - 1]];
    }
  }

  /** Counting is additive over a split of the message list. */
  lemma {:induction false} UnreadOfAppend(a: seq<Message>, b: seq<Message>, userId: string)
    ensures UnreadOf(a + b, userId) == UnreadOf(a, userId) + UnreadOf(b, userId)
    decreases |b|
  {
    if b == [] {
      assert a + b == a;
    } else {
      var b' := b[..|b| - 1];
      assert (a + b)[..|a + b| - 1] == a + b';
      UnreadOfAppend(a, b', userId);
    }
  }

  /** A message sent to somebody else, or already delivered or read, does not change the
      count; a new SENT message to the user adds one. */
  lemma UnreadCountOfNewMessage(ms: seq<Message>, m: Message, userId: string)
    ensures |UnreadOf([m] + ms, userId)| == |UnreadOf(ms, userId)| + (if IsUnreadFor(m, userId) then 1 else 0)
  {
    UnreadOfAppend([m], ms, userId);
    assert [m][..0] == [];
  }

  /** `getLastMessage()`: null without messages, "Attachment" when the first message is
      not text, and the first message's content otherwise. */
  function LastMessage(c: Chat): (r: Option<string>)
    ensures (c.messages.None? || c.messages.value == []) ==> r.None?
    ensures c.messages.Some? && c.messages.value != [] && c.messages.value[0].kind != Text ==> r == Some("Attachment")
    ensures c.messages.Some? && c.messages.value != [] && c.messages.value[0].kind == Text ==> r == c.messages.value[0].content
  {
    if c.messages.Some? && c.messages.value != [] then
      if c.messages.value[0].kind != Text then Some("Attachment") else c.messages.value[0].content
    else None
  }

  /** `getLastMessageTime()`: the first message's creation time, or null. */
  function LastMessageTime(c: Chat): (r: Option<int>)
    ensures r.None? <==> c.messages.None? || c.messages.value == []
  {
    if c.messages.Some? && c.messages.value != [] then Some(c.messages.value[0].createdAt) else None
  }

  /** The order the store loads messages in: by creation time, newest first. */
  predicate NewestFirst(ms: seq<Message>)
  {
    forall i, j :: 0 <= i < j < |ms| ==> ms[i].createdAt >= ms[j].createdAt
  }

  /** In store order the "last" message is the newest: its time is the latest creation
      time of the chat, and the summary is taken from a message created at that time. */
  lemma LastIsNewest(c: Chat)
    requires c.messages.Some? && NewestFirst(c.messages.value) && c.messages.value != []
    ensures var t := LastMessageTime(c);
      && t.Some?
      && (forall m :: m in c.messages.value ==> m.createdAt <= t.value)
      && (exists m :: m in c.messages.value && m.createdAt == t.value &&
            LastMessage(c) == (if m.kind != Text then Some("Attachment") else m.content))
  {
    var ms := c.messages.value;
    forall m | m in ms ensures m.createdAt <= ms[0].createdAt {
      var k :| 0 <= k < |ms| && ms[k] == m;
    }
    assert ms[0] in ms;
  }
}
