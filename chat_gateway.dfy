/**
 * The real-time gateway (`ChatGateway`): the registry of which socket speaks
 * for which user, and the rules that decide which sockets each outbound event
 * reaches.
 *
 * The socket.io server itself is not part of this model. What the gateway
 * relies on is kept abstractly as two fields of the gateway: the set of
 * connected sockets (the recipients of `server.emit`) and, per room, the set
 * of member sockets (what `client.join` and `client.leave` change and what
 * `server.to(room)` and `client.to(room)` address). Each handler returns the
 * deliveries it asks for: a recipient set and an event.
 */
module Gateway {
  import opened ChatTypes

  /** A socket's `id`. */
  type SessionId = string

  /** A room is named by a conversation id. */
  type RoomId = string

  // ---------------------------------------------------------------------------
  // The `userSockets` registry: a JavaScript `Map<string, Socket>`, whose
  // entries keep the order in which their keys were first set.

  datatype Entry = Entry(username: string, socket: SessionId)

  ghost predicate KeysDistinct(e: seq<Entry>) {
    forall i, j :: 0 <= i < j < |e| ==> e[i].username != e[j].username
  }

  /** The keys of the registry, in iteration order. */
  function Usernames(e: seq<Entry>): (r: seq<string>)
    ensures |r| == |e|
    ensures forall i :: 0 <= i < |e| ==> r[i] == e[i].username
  {
    if e == [] then [] else [e[0].username] + Usernames(e[1..])
  }

  /** `userSockets.get(u)`: the socket of the first entry for `u`. */
  function Lookup(e: seq<Entry>, u: string): (r: Option<SessionId>)
    ensures r.None? <==> u !in Usernames(e)
    ensures r.Some? ==> Entry(u, r.value) in e
  {
    if e == [] then None
    else if e[0].username == u then Some(e[0].socket)
    else Lookup(e[1..], u)
  }

  /** With distinct keys, every entry is what `get` finds for its key. */
  lemma LookupFindsEntry(e: seq<Entry>, i: nat)
    requires KeysDistinct(e) && i < |e|
    ensures Lookup(e, e[i].username) == Some(e[i].socket)
  {
  }

  /**
   * `userSockets.set(u, s)`: a key already present keeps its position and
   * gets the new socket; a new key goes last.
   */
  function MapSet(e: seq<Entry>, u: string, s: SessionId): (r: seq<Entry>)
    ensures Usernames(r) == if u in Usernames(e) then Usernames(e) else Usernames(e) + [u]
  {
    if e == [] then [Entry(u, s)]
    else if e[0].username == u then [Entry(u, s)] + e[1..]
    else
      var r := [e[0]] + MapSet(e[1..], u, s);
      assert Usernames(r) == [e[0].username] + Usernames(MapSet(e[1..], u, s));
      assert Usernames(e) == [e[0].username] + Usernames(e[1..]);
      r
  }

  /** After `set(u, s)`, `get(u)` is `s` and every other key's socket is as before. */
  lemma {:induction false} MapSetLookup(e: seq<Entry>, u: string, s: SessionId, v: string)
    ensures Lookup(MapSet(e, u, s), v) == if v == u then Some(s) else Lookup(e, v)
  {
    if e != [] && e[0].username != u {
      MapSetLookup(e[1..], u, s, v);
    }
  }

  /** `set` keeps the keys distinct. */
  lemma MapSetKeepsKeysDistinct(e: seq<Entry>, u: string, s: SessionId)
    requires KeysDistinct(e)
    ensures KeysDistinct(MapSet(e, u, s))
  {
  }

  /** `userSockets.delete(u)`: the first entry for `u` goes; the others keep their order and sockets. */
  function MapDelete(e: seq<Entry>, u: string): (r: seq<Entry>)
    ensures |r| <= |e|
  {
    if e == [] then []
    else if e[0].username == u then e[1..]
    else [e[0]] + MapDelete(e[1..], u)
  }

  /** Deleting the key of the first entry that has it removes exactly that entry. */
  lemma {:induction false} MapDeleteFirst(e: seq<Entry>, i: nat)
    requires i < |e|
    requires forall j :: 0 <= j < i ==> e[j].username != e[i].username
    ensures MapDelete(e, e[i].username) == e[..i] + e[i + 1..]
  {
    if i > 0 {
      assert e[1..][i - 1] == e[i];
      forall j | 0 <= j < i - 1 ensures e[1..][j].username != e[i].username {
        assert e[1..][j] == e[j + 1];
      }
      MapDeleteFirst(e[1..], i - 1);
      assert e[..i] == [e[0]] + e[1..][..i - 1];
      assert e[i + 1..] == e[1..][i..];
    }
  }

  /** Deleting a key that is absent changes nothing. */
  lemma {:induction false} MapDeleteAbsent(e: seq<Entry>, u: string)
    requires u !in Usernames(e)
    ensures MapDelete(e, u) == e
  {
    if e != [] {
      assert Usernames(e) == [e[0].username] + Usernames(e[1..]);
      MapDeleteAbsent(e[1..], u);
    }
  }

  /** The entries left after removing entry `i`, by position. */
  lemma RemoveAtIndex(e: seq<Entry>, i: nat)
    requires i < |e|
    ensures var r := e[..i] + e[i + 1..];
      |r| == |e| - 1 && forall k :: 0 <= k < |r| ==> r[k] == if k < i then e[k] else e[k + 1]
  {
  }

  /** Removing one entry keeps the keys distinct. */
  lemma RemoveAtKeepsKeysDistinct(e: seq<Entry>, i: nat)
    requires KeysDistinct(e) && i < |e|
    ensures KeysDistinct(e[..i] + e[i + 1..])
  {
  }

  /** No remaining entry holds a key that was absent, or the key of the removed entry. */
  lemma RemoveAtLeavesNoEntryFor(e: seq<Entry>, i: nat, v: string)
    requires KeysDistinct(e) && i < |e|
    requires v == e[i].username || v !in Usernames(e)
    ensures v !in Usernames(e[..i] + e[i + 1..])
  {
    var r := e[..i] + e[i + 1..];
    var names, left := Usernames(e), Usernames(r);
    RemoveAtIndex(e, i);
    forall k | 0 <= k < |r| ensures left[k] != v {
      var k' := if k < i then k else k + 1;
      assert left[k] == r[k].username == e[k'].username == names[k'];
      if v == e[i].username {
        assert k' != i;
      }
    }
  }

  /** A remaining entry is still what `get` finds for its key. */
  lemma RemoveAtKeepsEntry(e: seq<Entry>, i: nat, k: nat)
    requires KeysDistinct(e) && i < |e| && k < |e| && k != i
    ensures Lookup(e[..i] + e[i + 1..], e[k].username) == Some(e[k].socket)
  {
    var r := e[..i] + e[i + 1..];
    RemoveAtIndex(e, i);
    RemoveAtKeepsKeysDistinct(e, i);
    var k' := if k < i then k else k - 1;
    assert r[k'] == e[k];
    LookupFindsEntry(r, k');
  }

  /** After removing entry `i`, its user has no socket and every other user keeps theirs. */
  lemma RemoveAtLookup(e: seq<Entry>, i: nat, v: string)
    requires KeysDistinct(e) && i < |e|
    ensures Lookup(e[..i] + e[i + 1..], v) == if v == e[i].username then None else Lookup(e, v)
  {
    if v == e[i].username || Lookup(e, v).None? {
      RemoveAtLeavesNoEntryFor(e, i, v);
    } else {
      var x := Lookup(e, v).value;
      var k :| 0 <= k < |e| && e[k] == Entry(v, x);
      RemoveAtKeepsEntry(e, i, k);
    }
  }

  /** Where the `for ... of` scan of `handleDisconnect` stops: the first entry holding socket `s`. */
  function FirstWithSocket(e: seq<Entry>, s: SessionId): (r: Option<nat>)
    ensures r.Some? ==> r.value < |e| && e[r.value].socket == s
    ensures r.Some? ==> forall j :: 0 <= j < r.value ==> e[j].socket != s
    ensures r.None? <==> forall j :: 0 <= j < |e| ==> e[j].socket != s
  {
    if e == [] then None
    else if e[0].socket == s then Some(0)
    else match FirstWithSocket(e[1..], s)
      case None => None
      case Some(i) => Some(i + 1)
  }

  /**
   * The registry after `handleDisconnect(s)`: the first entry holding `s` is
   * deleted, if there is one; the other entries keep their places and the
   * keys stay distinct.
   */
  function AfterDisconnect(e: seq<Entry>, s: SessionId): (r: seq<Entry>)
    requires KeysDistinct(e)
    ensures KeysDistinct(r)
    ensures match FirstWithSocket(e, s)
      case None => r == e
      case Some(i) => r == e[..i] + e[i + 1..]
  {
    match FirstWithSocket(e, s)
    case None => e
    case Some(i) =>
      MapDeleteFirst(e, i);
      RemoveAtKeepsKeysDistinct(e, i);
      MapDelete(e, e[i].username)
  }

  lemma FirstWithSocketAt(e: seq<Entry>, s: SessionId, i: nat)
    requires i < |e| && e[i].socket == s
    requires forall j :: 0 <= j < i ==> e[j].socket != s
    ensures FirstWithSocket(e, s) == Some(i)
  {
  }

  /**
   * After a disconnect, the user whose entry was removed has no socket and
   * every other user keeps theirs; a disconnect that removed nothing changes
   * no lookup.
   */
  lemma AfterDisconnectLookup(e: seq<Entry>, s: SessionId, v: string)
    requires KeysDistinct(e)
    ensures Lookup(AfterDisconnect(e, s), v) ==
      match FirstWithSocket(e, s)
      case None => Lookup(e, v)
      case Some(i) => if v == e[i].username then None else Lookup(e, v)
  {
    match FirstWithSocket(e, s)
    case None =>
    case Some(i) =>
      RemoveAtLookup(e, i, v);
  }

  /**
   * The scan stops at the first match: if one socket registered two names,
   * its disconnect removes only the first and the second keeps pointing at
   * the closed socket.
   */
  lemma SharedSocketKeepsSecondName()
    ensures var e := MapSet(MapSet([], "Alice", "A"), "Bob", "A");
      AfterDisconnect(e, "A") == [Entry("Bob", "A")]
  {
  }

  /**
   * A user who registered again on socket `b` keeps `b` when the socket `a`
   * it registered on before disconnects: `a` is no longer anyone's socket in
   * the registry, so the disconnect removes nothing and announces nothing.
   */
  lemma ReRegisterSurvivesOldDisconnect(e: seq<Entry>, u: string, a: SessionId, b: SessionId)
    requires KeysDistinct(e)
    requires forall v :: v != u ==> Lookup(e, v) != Some(a)
    requires a != b
    ensures KeysDistinct(MapSet(e, u, b))
    ensures var e2 := MapSet(e, u, b);
      FirstWithSocket(e2, a) == None && AfterDisconnect(e2, a) == e2 && Lookup(e2, u) == Some(b)
  {
    var e2 := MapSet(e, u, b);
    MapSetKeepsKeysDistinct(e, u, b);
    MapSetLookup(e, u, b, u);
    forall j | 0 <= j < |e2| ensures e2[j].socket != a {
      var v := e2[j].username;
      LookupFindsEntry(e2, j);
      MapSetLookup(e, u, b, v);
    }
  }

  /** The scenario Alice on A, Alice again on B, A disconnects: Alice is still on B. */
  lemma AliceKeepsNewSocket()
    ensures KeysDistinct(MapSet(MapSet([], "Alice", "A"), "Alice", "B"))
    ensures var e := MapSet(MapSet([], "Alice", "A"), "Alice", "B");
      FirstWithSocket(e, "A") == None && AfterDisconnect(e, "A") == [Entry("Alice", "B")]
  {
  }

  // ---------------------------------------------------------------------------
  // Events

  datatype Event =
    | UserStatus(username: string, online: bool)
    | UserJoined(notice: RoomNotice)
    | UserLeft(notice: RoomNotice)
    | ReceiveMessage(message: Message)
    | UserTyping(status: TypingStatus)

  /** One `emit`: the sockets it reaches and the event. */
  datatype Delivery = Delivery(recipients: set<SessionId>, event: Event)

  /** What a handler returns to the calling socket (`{ success: true }`). */
  datatype Ack = Ack(success: bool)

  class ChatGateway {
    /** `userSockets`: username to socket id, in insertion order. */
    var userSockets: seq<Entry>
    /** The sockets connected to the server (the reach of `server.emit`). */
    var connected: set<SessionId>
    /** The members of each room that the handlers join and leave. */
    var rooms: map<RoomId, set<SessionId>>

    ghost predicate Valid()
      reads this
    {
      KeysDistinct(userSockets)
    }

    constructor ()
      ensures Valid()
      ensures userSockets == [] && connected == {} && rooms == map[]
    {
      userSockets := [];
      connected := {};
      rooms := map[];
    }

    /** The sockets in `room` (none if it was never joined). */
    function Members(room: RoomId): (r: set<SessionId>)
      reads this
    {
      if room in rooms then rooms[room] else {}
    }

    /** socket.io accepts a connection (`handleConnection` itself only logs). */
    method Connect(client: SessionId)
      requires Valid()
      modifies this
      ensures Valid()
      ensures connected == old(connected) + {client}
      ensures userSockets == old(userSockets) && rooms == old(rooms)
    {
      connected := connected + {client};
    }

    /**
     * socket.io closes a connection: before `handleDisconnect` runs the socket
     * has left every room and is no longer among the connected sockets.
     */
    method DropSession(client: SessionId)
      requires Valid()
      modifies this
      ensures Valid()
      ensures connected == old(connected) - {client}
      ensures rooms == map r | r in old(rooms) :: old(rooms)[r] - {client}
      ensures forall r :: client !in Members(r)
      ensures forall r :: Members(r) == old(Members(r)) - {client}
      ensures userSockets == old(userSockets)
    {
      connected := connected - {client};
      rooms := map r | r in rooms :: rooms[r] - {client};
    }

    /**
     * `handleDisconnect(client)`: scans the registry in order, deletes the
     * first entry whose socket is `client` and announces that user offline to
     * every connected socket; if no entry holds `client`, nothing happens.
     */
    method HandleDisconnect(client: SessionId) returns (out: seq<Delivery>)
      requires Valid()
      modifies this
      ensures Valid()
      ensures userSockets == AfterDisconnect(old(userSockets), client)
      ensures match FirstWithSocket(old(userSockets), client)
        case None => out == []
        case Some(i) => out == [Delivery(connected, UserStatus(old(userSockets)[i].username, false))]
      ensures connected == old(connected) && rooms == old(rooms)
    {
      out := [];
      var i := 0;
      while i < |userSockets|
        invariant 0 <= i <= |userSockets|
        invariant userSockets == old(userSockets) && out == []
        invariant forall j :: 0 <= j < i ==> userSockets[j].socket != client
      {
        if userSockets[i].socket == client {
          FirstWithSocketAt(userSockets, client, i);
          MapDeleteFirst(userSockets, i);
          var username := userSockets[i].username;
          userSockets := MapDelete(userSockets, username);
          out := [Delivery(connected, UserStatus(username, false))];
          break;
        }
        i := i + 1;
      }
    }

    /**
     * A connection closes: socket.io's cleanup (`DropSession`) runs before
     * `handleDisconnect`, so the closing socket never hears its own offline
     * notice.
     */
    method Disconnect(client: SessionId) returns (out: seq<Delivery>)
      requires Valid()
      modifies this
      ensures Valid()
      ensures connected == old(connected) - {client}
      ensures forall r :: Members(r) == old(Members(r)) - {client}
      ensures userSockets == AfterDisconnect(old(userSockets), client)
      ensures match FirstWithSocket(old(userSockets), client)
        case None => out == []
        case Some(i) => out == [Delivery(old(connected) - {client}, UserStatus(old(userSockets)[i].username, false))]
      ensures forall d :: d in out ==> client !in d.recipients
    {
      DropSession(client);
      out := HandleDisconnect(client);
    }

    /**
     * `handleRegister({username}, client)`: the user's socket becomes
     * `client`, replacing any earlier one; every connected socket hears that
     * the user is online.
     */
    method HandleRegister(username: string, client: SessionId) returns (ack: Ack, out: seq<Delivery>)
      requires Valid()
      modifies this
      ensures Valid()
      ensures userSockets == MapSet(old(userSockets), username, client)
      ensures Lookup(userSockets, username) == Some(client)
      ensures forall v :: v != username ==> Lookup(userSockets, v) == Lookup(old(userSockets), v)
      ensures out == [Delivery(connected, UserStatus(username, true))]
      ensures ack.success
      ensures connected == old(connected) && rooms == old(rooms)
    {
      MapSetKeepsKeysDistinct(userSockets, username, client);
      forall v ensures Lookup(MapSet(userSockets, username, client), v) == if v == username then Some(client) else Lookup(userSockets, v) {
        MapSetLookup(userSockets, username, client, v);
      }
      userSockets := MapSet(userSockets, username, client);
      out := [Delivery(connected, UserStatus(username, true))];
      ack := Ack(true);
    }

    /**
     * `handleJoinRoom({conversationId, username}, client)`: `client` joins
     * the room (joining twice changes nothing) and every other member hears
     * `userJoined`; the joining socket does not.
     */
    method HandleJoinRoom(conversationId: string, username: string, client: SessionId, now: int)
      returns (ack: Ack, out: seq<Delivery>)
      requires Valid()
      modifies this
      ensures Valid()
      ensures rooms == old(rooms)[conversationId := old(Members(conversationId)) + {client}]
      ensures Members(conversationId) == old(Members(conversationId)) + {client}
      ensures out == [Delivery(Members(conversationId) - {client}, UserJoined(RoomNotice(username, conversationId, now)))]
      ensures forall s :: s in out[0].recipients <==> s in old(Members(conversationId)) && s != client
      ensures ack.success
      ensures userSockets == old(userSockets) && connected == old(connected)
    {
      rooms := rooms[conversationId := Members(conversationId) + {client}];
      out := [Delivery(Members(conversationId) - {client}, UserJoined(RoomNotice(username, conversationId, now)))];
      ack := Ack(true);
    }

    /**
     * `handleLeaveRoom({conversationId, username}, client)`: `client` leaves
     * the room (a socket that was not in it is not an error) and the remaining
     * members hear `userLeft`.
     */
    method HandleLeaveRoom(conversationId: string, username: string, client: SessionId, now: int)
      returns (ack: Ack, out: seq<Delivery>)
      requires Valid()
      modifies this
      ensures Valid()
      ensures rooms == old(rooms)[conversationId := old(Members(conversationId)) - {client}]
      ensures Members(conversationId) == old(Members(conversationId)) - {client}
      ensures out == [Delivery(Members(conversationId), UserLeft(RoomNotice(username, conversationId, now)))]
      ensures forall s :: s in out[0].recipients <==> s in old(Members(conversationId)) && s != client
      ensures ack.success
      ensures userSockets == old(userSockets) && connected == old(connected)
    {
      rooms := rooms[conversationId := Members(conversationId) - {client}];
      // `client.to(room)` leaves out the sender, who has just left the room anyway.
      assert Members(conversationId) - {client} == Members(conversationId);
      out := [Delivery(Members(conversationId) - {client}, UserLeft(RoomNotice(username, conversationId, now)))];
      ack := Ack(true);
    }

    /**
     * `handleMessage(message, client)`: the message, exactly as the client
     * sent it, goes to every member of its conversation's room, the sender
     * included when it is a member. Nothing is stored or changed.
     */
    method HandleMessage(message: Message, client: SessionId) returns (ack: Ack, out: seq<Delivery>)
      ensures |out| == 1 && out[0].event == ReceiveMessage(message)
      ensures forall s :: s in out[0].recipients <==> s in Members(message.conversationId)
      ensures ack.success
    {
      out := [Delivery(Members(message.conversationId), ReceiveMessage(message))];
      ack := Ack(true);
    }

    /**
     * `handleTyping(status, client)`: the status, as sent, goes to every
     * member of the room except the socket that sent it. Nothing changes.
     */
    method HandleTyping(status: TypingStatus, client: SessionId) returns (ack: Ack, out: seq<Delivery>)
      ensures |out| == 1 && out[0].event == UserTyping(status)
      ensures forall s :: s in out[0].recipients <==> s in Members(status.conversationId) && s != client
      ensures client !in out[0].recipients
      ensures ack.success
    {
      out := [Delivery(Members(status.conversationId) - {client}, UserTyping(status))];
      ack := Ack(true);
    }
  }

  /**
   * Sockets A and B join room `conv-1`; A is typing: B hears it, A does not.
   * After B disconnects, B is in no room, so a message to `conv-1` reaches A only.
   */
  method TypingAndDisconnectScenario() returns (typing: seq<Delivery>, afterDrop: seq<Delivery>)
    ensures |typing| == 1 && "B" in typing[0].recipients && "A" !in typing[0].recipients
    ensures |afterDrop| == 1 && afterDrop[0].recipients == {"A"}
  {
    var g := new ChatGateway();
    g.Connect("A");
    g.Connect("B");
    var _, _ := g.HandleJoinRoom("conv-1", "Alice", "A", 0);
    var _, _ := g.HandleJoinRoom("conv-1", "Bob", "B", 0);
    var _, t := g.HandleTyping(TypingStatus("conv-1", "Alice", true), "A");
    typing := t;
    var _ := g.Disconnect("B");
    var _, m := g.HandleMessage(Message("m-1", "conv-1", "Alice", "hi", 0), "A");
    afterDrop := m;
  }
}
