/**
 * The records the chat server and the web client exchange. Timestamps are
 * milliseconds since the epoch; strings are sequences of characters.
 */
module ChatTypes {

  datatype Option<T> = None | Some(value: T)

  /** A chat message: its id, the conversation it belongs to, who sent it, the text, when. */
  datatype Message = Message(
    id: string,
    conversationId: string,
    sender: string,
    content: string,
    timestamp: int)

  /** A conversation as the server stores it; `lastMessage` is absent until a message is added. */
  datatype Conversation = Conversation(
    id: string,
    name: string,
    participants: seq<string>,
    lastMessage: Option<Message>,
    unreadCount: int)

  /** The payload of the `typing` and `userTyping` events. */
  datatype TypingStatus = TypingStatus(conversationId: string, username: string, isTyping: bool)

  /** The payload of the `userJoined` and `userLeft` events. */
  datatype RoomNotice = RoomNotice(username: string, conversationId: string, timestamp: int)

  /** `r` lists some of the elements of `s`, in the order they have in `s`. */
  ghost predicate IsSubsequence<T>(r: seq<T>, s: seq<T>)
    decreases |s|
  {
    if r == [] then true
    else if s == [] then false
    else if r[0] == s[0] then IsSubsequence(r[1..], s[1..])
    else IsSubsequence(r, s[1..])
  }
}
