/**
 * The web client's chat window (`ChatWindow`): how the list of messages and
 * the list of users shown as typing change when socket events arrive, and
 * what submitting the input box does. Each state update is a function from
 * the previous list and the event to the next list. `openId` is the id of the
 * conversation the window shows and `currentUser` the signed-in user.
 */
module ChatWindow {
  import opened ChatTypes
  import opened Text

  /** The sender name of the messages the window makes up itself. */
  const SystemSender := "system"

  // ---------------------------------------------------------------------------
  // Receiving messages

  /** `list.some(m => m.id === id)`. */
  function HasId(list: seq<Message>, id: string): (r: bool)
    ensures r <==> exists m :: m in list && m.id == id
  {
    if list == [] then false
    else if list[0].id == id then true
    else
      assert forall m :: m in list[1..] ==> m in list;
      assert forall m :: m in list && m != list[0] ==> m in list[1..];
      HasId(list[1..], id)
  }

  /** No two messages in the list share an id. */
  ghost predicate IdsDistinct(list: seq<Message>) {
    forall i, j :: 0 <= i < j < |list| ==> list[i].id != list[j].id
  }

  /**
   * `onMessage`: a message for the open conversation whose id is not yet
   * listed is appended; anything else leaves the list as it was.
   */
  function OnMessage(prev: seq<Message>, message: Message, openId: string): (r: seq<Message>)
    ensures r == prev || r == prev + [message]
    ensures r == prev + [message] <==>
      message.conversationId == openId && forall m :: m in prev ==> m.id != message.id
  {
    if message.conversationId == openId then
      if HasId(prev, message.id) then prev else prev + [message]
    else
      prev
  }

  /** Receiving the same message twice has the effect of receiving it once. */
  lemma OnMessageIdempotent(prev: seq<Message>, message: Message, openId: string)
    ensures OnMessage(OnMessage(prev, message, openId), message, openId) == OnMessage(prev, message, openId)
  {
  }

  /** Receiving a message never makes two listed messages share an id. */
  lemma OnMessageKeepsIdsDistinct(prev: seq<Message>, message: Message, openId: string)
    requires IdsDistinct(prev)
    ensures IdsDistinct(OnMessage(prev, message, openId))
  {
  }

  /** The list after the messages in `incoming` arrive one after the other. */
  function ReceiveAll(prev: seq<Message>, incoming: seq<Message>, openId: string): (r: seq<Message>)
    ensures |prev| <= |r| && r[..|prev|] == prev
    decreases |incoming|
  {
    if incoming == [] then prev
    else
      var next := OnMessage(prev, incoming[0], openId);
      var r := ReceiveAll(next, incoming[1..], openId);
      assert r[..|prev|] == r[..|next|][..|prev|];
      r
  }

  /** Starting from a list without repeated ids, no sequence of incoming messages creates one. */
  lemma {:induction false} ReceiveAllKeepsIdsDistinct(prev: seq<Message>, incoming: seq<Message>, openId: string)
    requires IdsDistinct(prev)
    ensures IdsDistinct(ReceiveAll(prev, incoming, openId))
    decreases |incoming|
  {
    if incoming != [] {
      OnMessageKeepsIdsDistinct(prev, incoming[0], openId);
      ReceiveAllKeepsIdsDistinct(OnMessage(prev, incoming[0], openId), incoming[1..], openId);
    }
  }

  /** `message` needs no further change of `list`: it is for another conversation or its id is listed. */
  predicate Absorbed(list: seq<Message>, message: Message, openId: string) {
    message.conversationId != openId || HasId(list, message.id)
  }

  /** Messages already absorbed change nothing. */
  lemma {:induction false} ReceiveAbsorbedIsNoOp(list: seq<Message>, incoming: seq<Message>, openId: string)
    requires forall k :: 0 <= k < |incoming| ==> Absorbed(list, incoming[k], openId)
    ensures ReceiveAll(list, incoming, openId) == list
    decreases |incoming|
  {
    if incoming != [] {
      assert Absorbed(list, incoming[0], openId);
      forall k | 0 <= k < |incoming| - 1 ensures Absorbed(list, incoming[1..][k], openId) {
        assert incoming[1..][k] == incoming[k + 1];
      }
      ReceiveAbsorbedIsNoOp(list, incoming[1..], openId);
    }
  }

  /** Once absorbed, a message stays absorbed however the list grows. */
  lemma AbsorbedGrows(list: seq<Message>, longer: seq<Message>, message: Message, openId: string)
    requires |list| <= |longer| && longer[..|list|] == list
    requires Absorbed(list, message, openId)
    ensures Absorbed(longer, message, openId)
  {
  }

  /** After a batch arrives, every message of the batch is absorbed by the resulting list. */
  lemma {:induction false} ReceiveAllAbsorbs(prev: seq<Message>, incoming: seq<Message>, openId: string)
    ensures forall k :: 0 <= k < |incoming| ==> Absorbed(ReceiveAll(prev, incoming, openId), incoming[k], openId)
    decreases |incoming|
  {
    if incoming != [] {
      var next := OnMessage(prev, incoming[0], openId);
      var r := ReceiveAll(prev, incoming, openId);
      ReceiveAllAbsorbs(next, incoming[1..], openId);
      assert Absorbed(next, incoming[0], openId) by {
        if incoming[0].conversationId == openId && next == prev + [incoming[0]] {
          assert incoming[0] in next;
        }
      }
      AbsorbedGrows(next, r, incoming[0], openId);
      forall k | 1 <= k < |incoming| ensures Absorbed(r, incoming[k], openId) {
        assert incoming[1..][k - 1] == incoming[k];
      }
    }
  }

  /** Receiving a whole batch a second time changes nothing: delivery twice is delivery once. */
  lemma ReceiveAllIdempotent(prev: seq<Message>, incoming: seq<Message>, openId: string)
    ensures var once := ReceiveAll(prev, incoming, openId);
      ReceiveAll(once, incoming, openId) == once
  {
    ReceiveAllAbsorbs(prev, incoming, openId);
    ReceiveAbsorbedIsNoOp(ReceiveAll(prev, incoming, openId), incoming, openId);
  }

  // ---------------------------------------------------------------------------
  // Typing indicators

  /** `list.filter(x => x !== u)`: every occurrence of `u` goes; the rest keep their order. */
  function RemoveAll(list: seq<string>, u: string): (r: seq<string>)
    ensures forall x :: x in r <==> x in list && x != u
    ensures IsSubsequence(r, list)
    ensures multiset(r) == multiset(list)[u := 0]
  {
    if list == [] then []
    else
      assert list == [list[0]] + list[1..];
      if list[0] == u then
        var rest := RemoveAll(list[1..], u);
        assert rest != [] ==> rest[0] in rest;
        rest
      else [list[0]] + RemoveAll(list[1..], u)
  }

  /** No name is listed twice. */
  ghost predicate NoDuplicates(list: seq<string>) {
    forall i, j :: 0 <= i < j < |list| ==> list[i] != list[j]
  }

  /** Filtering keeps a duplicate-free list duplicate-free. */
  lemma {:induction false} RemoveAllKeepsNoDuplicates(list: seq<string>, u: string)
    requires NoDuplicates(list)
    ensures NoDuplicates(RemoveAll(list, u))
  {
    if list != [] {
      RemoveAllKeepsNoDuplicates(list[1..], u);
      if list[0] != u {
        var rest := RemoveAll(list[1..], u);
        assert list[0] !in list[1..] by {
          forall k | 0 <= k < |list[1..]| ensures list[1..][k] != list[0] {
            assert list[1..][k] == list[k + 1];
          }
        }
        assert list[0] !in rest;
      }
    }
  }

  /**
   * `onTyping`: for the open conversation, someone other than the current
   * user who starts typing is added if not yet listed; any other typing
   * event removes that user's name. Events for other conversations change
   * nothing.
   */
  function OnTyping(prev: seq<string>, status: TypingStatus, openId: string, currentUser: string): (r: seq<string>)
    ensures status.conversationId != openId ==> r == prev
    ensures status.conversationId == openId ==> forall x :: x in r <==>
      (x in prev && x != status.username) || (x == status.username && status.isTyping && status.username != currentUser)
    ensures status.conversationId == openId && status.isTyping && status.username != currentUser ==>
      r == if status.username in prev then prev else prev + [status.username]
    ensures status.conversationId == openId && !(status.isTyping && status.username != currentUser) ==>
      IsSubsequence(r, prev) && multiset(r) == multiset(prev)[status.username := 0]
  {
    if status.conversationId == openId then
      if status.isTyping && status.username != currentUser then
        if status.username in prev then prev else prev + [status.username]
      else
        RemoveAll(prev, status.username)
    else
      prev
  }

  /** What the typing list always satisfies: no name twice, and never the current user. */
  ghost predicate TypingInvariant(list: seq<string>, currentUser: string) {
    NoDuplicates(list) && currentUser !in list
  }

  /** Every typing update keeps the invariant. */
  lemma OnTypingKeepsInvariant(prev: seq<string>, status: TypingStatus, openId: string, currentUser: string)
    requires TypingInvariant(prev, currentUser)
    ensures TypingInvariant(OnTyping(prev, status, openId, currentUser), currentUser)
  {
    if status.conversationId == openId && !(status.isTyping && status.username != currentUser) {
      RemoveAllKeepsNoDuplicates(prev, status.username);
    }
  }

  /** The typing list after the events in `events` arrive one after the other. */
  function TypingAfter(prev: seq<string>, events: seq<TypingStatus>, openId: string, currentUser: string): seq<string>
    decreases |events|
  {
    if events == [] then prev
    else TypingAfter(OnTyping(prev, events[0], openId, currentUser), events[1..], openId, currentUser)
  }

  /** From the initial empty list, no sequence of typing events lists a name twice or lists the current user. */
  lemma {:induction false} TypingAfterKeepsInvariant(prev: seq<string>, events: seq<TypingStatus>, openId: string, currentUser: string)
    requires TypingInvariant(prev, currentUser)
    ensures TypingInvariant(TypingAfter(prev, events, openId, currentUser), currentUser)
    decreases |events|
  {
    if events != [] {
      OnTypingKeepsInvariant(prev, events[0], openId, currentUser);
      TypingAfterKeepsInvariant(OnTyping(prev, events[0], openId, currentUser), events[1..], openId, currentUser);
    }
  }

  /** The window's starting state satisfies the invariant, so every reachable typing list does. */
  lemma TypingFromEmpty(events: seq<TypingStatus>, openId: string, currentUser: string)
    ensures TypingInvariant(TypingAfter([], events, openId, currentUser), currentUser)
  {
    TypingAfterKeepsInvariant([], events, openId, currentUser);
  }

  /**
   * The invariant holds for one current user only: a name listed while Alice
   * is signed in stays listed when the window switches to that user.
   */
  lemma TypingListSurvivesUserSwitch()
    ensures var list := OnTyping([], TypingStatus("conv-1", "Bob", true), "conv-1", "Alice");
      && list == ["Bob"]
      && TypingInvariant(list, "Alice")
      && !TypingInvariant(list, "Bob")
  {
  }

  // ---------------------------------------------------------------------------
  // Join and leave notices

  /**
   * A notice about someone else in the open conversation appends one system
   * message with the given text; a notice about the current user or another
   * conversation is ignored. `systemId` stands for `system-${Date.now()}-${Math.random()}`.
   */
  function OnRoomNotice(prev: seq<Message>, notice: RoomNotice, text: string, openId: string, currentUser: string, systemId: string)
    : (r: seq<Message>)
  {
    if notice.conversationId == openId && notice.username != currentUser then
      prev + [Message(systemId, notice.conversationId, SystemSender, text, notice.timestamp)]
    else
      prev
  }

  /** `onUserJoined`: appends "<username> joined the chat". */
  function OnUserJoined(prev: seq<Message>, notice: RoomNotice, openId: string, currentUser: string, systemId: string)
    : (r: seq<Message>)
    ensures notice.conversationId == openId && notice.username != currentUser ==>
      && |r| == |prev| + 1 && r[..|prev|] == prev
      && r[|prev|].id == systemId
      && r[|prev|].sender == SystemSender
      && r[|prev|].content == notice.username + " joined the chat"
      && r[|prev|].conversationId == openId
      && r[|prev|].timestamp == notice.timestamp
    ensures !(notice.conversationId == openId && notice.username != currentUser) ==> r == prev
  {
    OnRoomNotice(prev, notice, notice.username + " joined the chat", openId, currentUser, systemId)
  }

  /** `onUserLeft`: appends "<username> left the chat". */
  function OnUserLeft(prev: seq<Message>, notice: RoomNotice, openId: string, currentUser: string, systemId: string)
    : (r: seq<Message>)
    ensures notice.conversationId == openId && notice.username != currentUser ==>
      && |r| == |prev| + 1 && r[..|prev|] == prev
      && r[|prev|].id == systemId
      && r[|prev|].sender == SystemSender
      && r[|prev|].content == notice.username + " left the chat"
      && r[|prev|].conversationId == openId
      && r[|prev|].timestamp == notice.timestamp
    ensures !(notice.conversationId == openId && notice.username != currentUser) ==> r == prev
  {
    OnRoomNotice(prev, notice, notice.username + " left the chat", openId, currentUser, systemId)
  }

  // ---------------------------------------------------------------------------
  // Sending

  /** What `sendMessage` is given: the server or socket layer adds id and timestamp. */
  datatype OutgoingMessage = OutgoingMessage(conversationId: string, sender: string, content: string)

  /** The effect of submitting the input box. */
  datatype SubmitResult =
    | Ignored
    | Sent(message: OutgoingMessage, typing: TypingStatus, newInput: string)

  /**
   * `handleSendMessage`: when the input holds something besides whitespace,
   * the trimmed text is sent as the current user's message, the input is
   * cleared and a typing-stopped status is sent; otherwise nothing happens.
   */
  function OnSubmit(input: string, openId: string, currentUser: string): (r: SubmitResult)
    ensures r.Sent? <==> exists k :: 0 <= k < |input| && !IsJsWhitespace(input[k])
    ensures r.Sent? ==> r.message == OutgoingMessage(openId, currentUser, Trim(input))
    ensures r.Sent? ==> r.typing == TypingStatus(openId, currentUser, false) && r.newInput == ""
    ensures r.Sent? ==> var c := r.message.content;
      c != [] && !IsJsWhitespace(c[0]) && !IsJsWhitespace(c[|c| - 1])
  {
    if Trim(input) != [] then
      Sent(OutgoingMessage(openId, currentUser, Trim(input)), TypingStatus(openId, currentUser, false), "")
    else
      Ignored
  }
}
