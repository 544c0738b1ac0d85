/**
 * The server's in-memory conversation store (`ChatService`): conversations by
 * id, a message history per conversation id, and a counter that makes message
 * ids unique. The clock (`Date.now()`, `new Date()`) and the random id suffix
 * (`Math.random()`) are parameters of the operations that read them.
 */
module ConversationStore {
  import opened ChatTypes
  import opened Text

  /** The page size `getMessages` uses when the caller gives none. */
  const DefaultLimit := 50

  /** The users `searchUsers` searches. */
  const AllUsers: seq<string> := ["Alice", "Bob", "Charlie", "David", "Eve", "Frank"]

  /** The ids of the two messages the store starts with. */
  const SeedMessageIds: set<string> := {"msg-1", "msg-2"}

  // ---------------------------------------------------------------------------
  // Identifiers

  /** `msg-${Date.now()}-${counter}-${suffix}`. */
  function MessageId(clock: nat, counter: nat, suffix: string): (id: string)
    ensures |id| >= 8 && id[..4] == "msg-"
  {
    "msg-" + DecimalString(clock) + "-" + DecimalString(counter) + "-" + suffix
  }

  /** `conv-${Date.now()}`. */
  function ConversationId(clock: nat): (id: string)
    ensures |id| >= 6 && id[..5] == "conv-"
  {
    "conv-" + DecimalString(clock)
  }

  lemma DecimalStringHasNoDash(n: nat)
    ensures '-' !in DecimalString(n)
  {
  }

  /** The position of the first `c` in `s`. */
  function IndexOf(s: string, c: char): (i: nat)
    requires c in s
    ensures i < |s| && s[i] == c && c !in s[..i]
  {
    if s[0] == c then 0 else 1 + IndexOf(s[1..], c)
  }

  /** In `a-x` with no dash in `a`, the first dash is right after `a`. */
  lemma {:induction false} FirstDashAfter(a: string, x: string)
    requires '-' !in a
    ensures '-' in a + "-" + x && IndexOf(a + "-" + x, '-') == |a|
  {
    var u := a + "-" + x;
    assert u[|a|] == '-';
    if a != [] {
      assert u[0] == a[0];
      assert u[1..] == a[1..] + "-" + x;
      FirstDashAfter(a[1..], x);
    }
  }

  /** Two strings both of the form `a-x` with no dash in `a` agree on `a` and on `x`. */
  lemma SplitAtFirstDash(a: string, x: string, b: string, y: string)
    requires '-' !in a && '-' !in b
    requires a + "-" + x == b + "-" + y
    ensures a == b && x == y
  {
    var u := a + "-" + x;
    FirstDashAfter(a, x);
    FirstDashAfter(b, y);
    assert a == u[..|a|] == b;
    assert x == u[|a| + 1..] == y;
  }

  /** What follows `msg-` in a message id. */
  lemma MessageIdTail(t: nat, c: nat, s: string)
    ensures MessageId(t, c, s)[4..] == DecimalString(t) + "-" + (DecimalString(c) + "-" + s)
  {
    var a, b := DecimalString(t), DecimalString(c);
    var tail := a + "-" + (b + "-" + s);
    calc {
      MessageId(t, c, s);
      "msg-" + a + "-" + b + "-" + s;
      { assert a + "-" + b + "-" + s == tail; }
      "msg-" + tail;
    }
    assert ("msg-" + tail)[4..] == tail;
  }

  /**
   * A message id determines the clock reading, the counter value and the
   * suffix it was made from; in particular ids made from different counter
   * values differ whatever the clock and the random suffix were.
   */
  lemma MessageIdInjective(t1: nat, c1: nat, s1: string, t2: nat, c2: nat, s2: string)
    requires MessageId(t1, c1, s1) == MessageId(t2, c2, s2)
    ensures t1 == t2 && c1 == c2 && s1 == s2
  {
    MessageIdTail(t1, c1, s1);
    MessageIdTail(t2, c2, s2);
    DecimalStringHasNoDash(t1);
    DecimalStringHasNoDash(t2);
    DecimalStringHasNoDash(c1);
    DecimalStringHasNoDash(c2);
    SplitAtFirstDash(DecimalString(t1), DecimalString(c1) + "-" + s1, DecimalString(t2), DecimalString(c2) + "-" + s2);
    SplitAtFirstDash(DecimalString(c1), s1, DecimalString(c2), s2);
    DecimalStringInjective(t1, t2);
    DecimalStringInjective(c1, c2);
  }

  /** Two `createConversation` calls at different clock readings make different ids. */
  lemma ConversationIdInjective(t1: nat, t2: nat)
    requires ConversationId(t1) == ConversationId(t2)
    ensures t1 == t2
  {
    assert ConversationId(t1)[5..] == DecimalString(t1);
    assert ConversationId(t2)[5..] == DecimalString(t2);
    DecimalStringInjective(t1, t2);
  }

  /** No generated message id is one of the seed ids. */
  lemma MessageIdIsNotSeed(t: nat, c: nat, s: string)
    ensures MessageId(t, c, s) !in SeedMessageIds
  {
  }

  /** `id` is a seed id or was generated with a counter value in `1..n`. */
  ghost predicate IssuedBy(id: string, n: nat) {
    id in SeedMessageIds || exists t: nat, c: nat, s: string :: 1 <= c <= n && id == MessageId(t, c, s)
  }

  lemma IssuedByGrows(id: string, n: nat, m: nat)
    requires IssuedBy(id, n) && n <= m
    ensures IssuedBy(id, m)
  {
  }

  /** An id generated with a counter value above `n` was not issued by counter `n`. */
  lemma FreshIdNotIssued(id: string, n: nat, t: nat, s: string)
    requires IssuedBy(id, n)
    ensures id != MessageId(t, n + 1, s)
  {
    if id !in SeedMessageIds {
      var t0: nat, c0: nat, s0: string :| 1 <= c0 <= n && id == MessageId(t0, c0, s0);
      if id == MessageId(t, n + 1, s) {
        MessageIdInjective(t0, c0, s0, t, n + 1, s);
      }
    }
  }

  // ---------------------------------------------------------------------------
  // Sequences

  function Min(a: int, b: int): int {
    if a <= b then a else b
  }

  function Max(a: int, b: int): int {
    if a <= b then b else a
  }

  /** `Array.prototype.slice(start)`: a negative start counts from the end; out-of-range starts are clamped. */
  function SliceFrom<T>(s: seq<T>, start: int): (r: seq<T>)
    ensures |r| <= |s| && r == s[|s| - |r|..]
    ensures |r| == if start < 0 then Min(-start, |s|) else |s| - Min(start, |s|)
  {
    var k := if start < 0 then Max(|s| + start, 0) else Min(start, |s|);
    s[k..]
  }

  /** The values of `m` at the keys of `keys`, in that order (`Array.from(map.values())`). */
  function ValuesInOrder<K, V>(keys: seq<K>, m: map<K, V>): (r: seq<V>)
    requires forall k :: k in keys ==> k in m
    ensures |r| == |keys|
    ensures forall i :: 0 <= i < |keys| ==> r[i] == m[keys[i]]
  {
    if keys == [] then [] else [m[keys[0]]] + ValuesInOrder(keys[1..], m)
  }

  /** The last element of a non-empty sequence. */
  function Last<T>(s: seq<T>): T
    requires |s| > 0
  {
    s[|s| - 1]
  }

  // ---------------------------------------------------------------------------
  // User search

  /** `user.toLowerCase().includes(query.toLowerCase())`. */
  predicate Matches(user: string, query: string) {
    Includes(Lower(user), Lower(query))
  }

  /** `users.filter(u => Matches(u, query))`. */
  function FilterMatches(users: seq<string>, query: string): (r: seq<string>)
    ensures forall u :: u in r <==> u in users && Matches(u, query)
    ensures IsSubsequence(r, users)
    ensures forall u :: multiset(r)[u] == if Matches(u, query) then multiset(users)[u] else 0
  {
    if users == [] then []
    else
      assert users == [users[0]] + users[1..];
      var rest := FilterMatches(users[1..], query);
      if Matches(users[0], query) then
        assert ([users[0]] + rest)[1..] == rest;
        [users[0]] + rest
      else
        rest
  }

  /**
   * `searchUsers`: the fixed users whose lower-case name contains the
   * lower-case query, in the order of the fixed list.
   */
  function SearchUsers(query: string): (r: seq<string>)
    ensures forall u :: u in r <==> u in AllUsers && Matches(u, query)
    ensures IsSubsequence(r, AllUsers)
  {
    FilterMatches(AllUsers, query)
  }

  /** When every user matches, the filter keeps the whole list. */
  lemma {:induction false} FilterKeepsAllWhenAllMatch(users: seq<string>, query: string)
    requires forall u :: u in users ==> Matches(u, query)
    ensures FilterMatches(users, query) == users
  {
    if users != [] {
      assert users[0] in users;
      FilterKeepsAllWhenAllMatch(users[1..], query);
    }
  }

  /** An empty query finds every user, in list order. */
  lemma SearchEmptyQueryFindsAll()
    ensures SearchUsers("") == AllUsers
  {
    forall u | u in AllUsers ensures Matches(u, "") {
      assert Lower("") == "";
      assert OccursAt(Lower(u), "", 0);
    }
    FilterKeepsAllWhenAllMatch(AllUsers, "");
  }

  // ---------------------------------------------------------------------------
  // The store

  /** No two positions anywhere in the store hold messages with the same id. */
  ghost predicate IdsUnique(msgs: map<string, seq<Message>>) {
    forall a, i, b, j ::
      a in msgs && b in msgs && 0 <= i < |msgs[a]| && 0 <= j < |msgs[b]| && (a != b || i != j)
      ==> msgs[a][i].id != msgs[b][j].id
  }

  /** `order` lists every conversation id exactly once. */
  ghost predicate OrderListsKeys(order: seq<string>, conversations: map<string, Conversation>) {
    && (forall i, j :: 0 <= i < j < |order| ==> order[i] != order[j])
    && (forall id :: id in conversations <==> id in order)
  }

  /**
   * Every conversation is stored under its own id, has a history, and its
   * last message, when it has one, is the last message of that history.
   */
  ghost predicate ConversationsAgree(conversations: map<string, Conversation>, messages: map<string, seq<Message>>) {
    && (forall id :: id in conversations ==> conversations[id].id == id)
    && conversations.Keys <= messages.Keys
    && (forall id :: id in conversations && conversations[id].lastMessage.Some? ==>
          |messages[id]| > 0 && Last(messages[id]) == conversations[id].lastMessage.value)
  }

  /**
   * Every stored message sits in the history of its own conversation id, was
   * issued by counter `counter`, and has an id no other stored message has.
   */
  ghost predicate HistoriesAgree(messages: map<string, seq<Message>>, counter: nat) {
    && (forall id, i :: id in messages && 0 <= i < |messages[id]| ==> messages[id][i].conversationId == id)
    && (forall id, i :: id in messages && 0 <= i < |messages[id]| ==> IssuedBy(messages[id][i].id, counter))
    && IdsUnique(messages)
  }

  ghost predicate StoreInvariant(conversations: map<string, Conversation>, order: seq<string>,
                                 messages: map<string, seq<Message>>, counter: nat) {
    OrderListsKeys(order, conversations) && ConversationsAgree(conversations, messages) && HistoriesAgree(messages, counter)
  }

  /** The conversations `initializeMockData` stores. */
  function SeedConversations(): map<string, Conversation> {
    map[
      "conv-1" := Conversation("conv-1", "General Chat", ["Alice", "Bob", "Charlie"], None, 0),
      "conv-2" := Conversation("conv-2", "Project Discussion", ["Alice", "David"], None, 0)]
  }

  /** The histories `initializeMockData` stores, `clock` being `Date.now()` at start-up. */
  function SeedHistories(clock: int): map<string, seq<Message>> {
    map[
      "conv-1" := [
        Message("msg-1", "conv-1", "Bob", "Hey everyone! \U{00F0}\U{0178}\U{2018}\U{2039}", clock - 3600000),
        Message("msg-2", "conv-1", "Alice", "Hi Bob! How are you?", clock - 3000000)],
      "conv-2" := []]
  }

  /** The seeded store satisfies the invariant. */
  lemma SeedInvariant(clock: int)
    ensures StoreInvariant(SeedConversations(), ["conv-1", "conv-2"], SeedHistories(clock), 0)
  {
    var ms: map<string, seq<Message>> := SeedHistories(clock);
    assert forall id, i :: id in ms && 0 <= i < |ms[id]| ==> ms[id][i].id in SeedMessageIds;
    assert ms["conv-1"][0].id != ms["conv-1"][1].id;
  }

  /** `conversations` after `addMessage` stores `m`: the named conversation, if any, gets `m` as its last message. */
  function WithLastMessage(conversations: map<string, Conversation>, m: Message): (r: map<string, Conversation>)
    ensures r.Keys == conversations.Keys
  {
    if m.conversationId in conversations
    then conversations[m.conversationId := conversations[m.conversationId].(lastMessage := Some(m))]
    else conversations
  }

  /** The histories after `m` is appended to the history of its conversation id (created if missing). */
  function Appended(messages: map<string, seq<Message>>, m: Message): map<string, seq<Message>> {
    messages[m.conversationId := (if m.conversationId in messages then messages[m.conversationId] else []) + [m]]
  }

  /** A message made with counter `n + 1` has an id that no message issued by counter `n` has. */
  lemma FreshIdIsNew(messages: map<string, seq<Message>>, n: nat, m: Message, clock: nat, suffix: string)
    requires HistoriesAgree(messages, n)
    requires m.id == MessageId(clock, n + 1, suffix)
    ensures forall id, i :: id in messages && 0 <= i < |messages[id]| ==> messages[id][i].id != m.id
  {
    forall id: string, i: int | id in messages && 0 <= i < |messages[id]| ensures messages[id][i].id != m.id {
      FreshIdNotIssued(messages[id][i].id, n, clock, suffix);
    }
  }

  /** Appending a freshly issued message keeps the histories consistent under the incremented counter. */
  lemma AppendKeepsHistoriesAgree(messages: map<string, seq<Message>>, n: nat, m: Message, clock: nat, suffix: string)
    requires HistoriesAgree(messages, n)
    requires m.id == MessageId(clock, n + 1, suffix)
    ensures HistoriesAgree(Appended(messages, m), n + 1)
  {
    var cid := m.conversationId;
    var h: seq<Message> := if cid in messages then messages[cid] else [];
    var after: map<string, seq<Message>> := Appended(messages, m);
    FreshIdIsNew(messages, n, m, clock, suffix);
    forall id: string, i: int | id in after && 0 <= i < |after[id]| ensures IssuedBy(after[id][i].id, n + 1) {
      if id == cid && i == |h| {
        assert IssuedBy(m.id, n + 1) by {
          assert 1 <= n + 1 <= n + 1 && m.id == MessageId(clock, n + 1, suffix);
        }
      } else {
        IssuedByGrows(messages[id][i].id, n, n + 1);
      }
    }
    AppendKeepsIdsUnique(messages, cid, m);
  }

  /** `addMessage` keeps the store invariant. */
  lemma AddMessageKeepsInvariant(conversations: map<string, Conversation>, order: seq<string>,
                                 messages: map<string, seq<Message>>, n: nat, m: Message, clock: nat, suffix: string)
    requires StoreInvariant(conversations, order, messages, n)
    requires m.id == MessageId(clock, n + 1, suffix)
    ensures StoreInvariant(WithLastMessage(conversations, m), order, Appended(messages, m), n + 1)
  {
    AppendKeepsHistoriesAgree(messages, n, m, clock, suffix);
  }

  /** `createConversation` keeps the store invariant. */
  lemma CreateKeepsInvariant(conversations: map<string, Conversation>, order: seq<string>,
                             messages: map<string, seq<Message>>, n: nat, c: Conversation)
    requires StoreInvariant(conversations, order, messages, n)
    requires c.lastMessage == None
    ensures var order' := if c.id in conversations then order else order + [c.id];
      StoreInvariant(conversations[c.id := c], order', messages[c.id := []], n)
  {
    var ms: map<string, seq<Message>> := messages[c.id := []];
    assert forall id, i :: id in ms && 0 <= i < |ms[id]| ==> id != c.id && ms[id][i] == messages[id][i];
    assert IdsUnique(ms) by {
      forall a, i, b, j | a in ms && b in ms && 0 <= i < |ms[a]| && 0 <= j < |ms[b]| && (a != b || i != j)
        ensures ms[a][i].id != ms[b][j].id
      {
        assert ms[a][i] == messages[a][i] && ms[b][j] == messages[b][j];
      }
    }
  }

  class ChatService {
    /** Conversations by id (`conversations`). */
    var conversations: map<string, Conversation>
    /** The ids of `conversations` in insertion order, the iteration order of a JavaScript `Map`. */
    var order: seq<string>
    /** Message history by conversation id (`messages`). */
    var messages: map<string, seq<Message>>
    /** How many messages `addMessage` has created (`messageCounter`). */
    var messageCounter: nat

    ghost predicate Valid()
      reads this
    {
      StoreInvariant(conversations, order, messages, messageCounter)
    }

    /** The store as `initializeMockData` leaves it; `clock` is `Date.now()` at start-up. */
    constructor (clock: int)
      ensures Valid()
      ensures conversations == SeedConversations() && order == ["conv-1", "conv-2"]
      ensures messages == SeedHistories(clock) && messageCounter == 0
    {
      conversations := SeedConversations();
      order := ["conv-1", "conv-2"];
      messages := SeedHistories(clock);
      messageCounter := 0;
      new;
      SeedInvariant(clock);
    }

    /** The stored history of `id`, or the empty history if there is none (`messages.get(id) || []`). */
    function History(id: string): (h: seq<Message>)
      reads this
    {
      if id in messages then messages[id] else []
    }

    /** `getAllConversations`: every stored conversation exactly once, in insertion order. */
    function AllConversations(): (r: seq<Conversation>)
      reads this
      requires Valid()
      ensures |r| == |order| == |conversations|
      ensures forall i :: 0 <= i < |r| ==> r[i] == conversations[order[i]]
      ensures forall c :: c in r <==> c in conversations.Values
    {
      var r := ValuesInOrder(order, conversations);
      assert forall c :: c in conversations.Values ==> c in r by {
        forall c | c in conversations.Values ensures c in r {
          var id :| id in conversations && conversations[id] == c;
          var i :| 0 <= i < |order| && order[i] == id;
          assert r[i] == c;
        }
      }
      DistinctKeysCount(order, conversations.Keys);
      r
    }

    /** `getConversation`: the conversation stored under `id`, if any. */
    function GetConversation(id: string): (r: Option<Conversation>)
      reads this
      ensures r.Some? <==> id in conversations
      ensures r.Some? ==> r.value == conversations[id]
      ensures Valid() && r.Some? ==> r.value.id == id
    {
      if id in conversations then Some(conversations[id]) else None
    }

    /**
     * `getMessages(id, limit)`, which returns `history.slice(-limit)`: a tail
     * of the history in its stored order. A positive limit keeps the last
     * `limit` messages (all if there are fewer), a zero limit keeps the whole
     * history, and a negative limit drops the first `-limit` messages.
     */
    function GetMessages(id: string, limit: int := DefaultLimit): (r: seq<Message>)
      reads this
      ensures var h := History(id); |r| <= |h| && r == h[|h| - |r|..]
      ensures var h := History(id);
        |r| == if limit >= 1 then Min(limit, |h|) else if limit == 0 then |h| else |h| - Min(-limit, |h|)
      ensures id !in messages ==> r == []
    {
      var h := History(id);
      SliceFrom(h, -limit)
    }

    /**
     * `createConversation(name, participants)` at clock reading `clock`: the
     * id is `conv-${clock}`; the conversation is stored under it with an empty
     * history, replacing whatever was stored under that id before.
     */
    method CreateConversation(name: string, participants: seq<string>, clock: nat) returns (c: Conversation)
      requires Valid()
      modifies this
      ensures Valid()
      ensures c == Conversation(ConversationId(clock), name, participants, None, 0)
      ensures conversations == old(conversations)[c.id := c]
      ensures messages == old(messages)[c.id := []]
      ensures order == if c.id in old(conversations) then old(order) else old(order) + [c.id]
      ensures messageCounter == old(messageCounter)
      ensures GetConversation(c.id) == Some(c) && GetMessages(c.id) == []
    {
      var id := ConversationId(clock);
      c := Conversation(id, name, participants, None, 0);
      CreateKeepsInvariant(conversations, order, messages, messageCounter, c);
      if id !in conversations {
        order := order + [id];
      }
      conversations := conversations[id := c];
      messages := messages[id := []];
    }

    /**
     * `addMessage({conversationId, sender, content})` at clock reading `clock`
     * (used in the id), time `now` (the timestamp) and random suffix `suffix`.
     * The counter goes up by one and is part of the new id, which occurs
     * nowhere in the store yet. The message is appended to the history of its
     * conversation id (a history is created if there was none), and if a
     * conversation with that id exists its last message becomes the new one.
     * An unknown conversation id is not an error: no conversation is created.
     */
    method AddMessage(conversationId: string, sender: string, content: string, clock: nat, now: int, suffix: string)
      returns (m: Message)
      requires Valid()
      modifies this
      ensures Valid()
      ensures messageCounter == old(messageCounter) + 1
      ensures m == Message(MessageId(clock, messageCounter, suffix), conversationId, sender, content, now)
      ensures messages == old(messages)[conversationId := old(History(conversationId)) + [m]]
      ensures conversations == if conversationId in old(conversations)
        then old(conversations)[conversationId := old(conversations)[conversationId].(lastMessage := Some(m))]
        else old(conversations)
      ensures order == old(order)
      ensures forall id, i :: id in old(messages) && 0 <= i < |old(messages)[id]| ==> old(messages)[id][i].id != m.id
    {
      m := Message(MessageId(clock, messageCounter + 1, suffix), conversationId, sender, content, now);
      AddMessageKeepsInvariant(conversations, order, messages, messageCounter, m, clock, suffix);
      FreshIdIsNew(messages, messageCounter, m, clock, suffix);
      messageCounter := messageCounter + 1;
      var history := History(conversationId);
      messages := messages[conversationId := history + [m]];
      if conversationId in conversations {
        conversations := conversations[conversationId := conversations[conversationId].(lastMessage := Some(m))];
      }
    }
  }

  /**
   * Two messages posted to the seeded, empty "conv-2" at the same clock
   * reading with the same random suffix still get different ids, and a
   * page lists them in the order they were posted.
   */
  method MessagesScenario(clock: nat) returns (first: Message, second: Message, page: seq<Message>)
    ensures first.id != second.id
    ensures page == [first, second]
    ensures first.sender == "Bob" && first.content == "hi" && second.sender == "Alice" && second.content == "hello"
  {
    var store := new ChatService(clock);
    first := store.AddMessage("conv-2", "Bob", "hi", clock, clock, "abc");
    ghost var h := store.messages["conv-2"];
    assert h[|h| - 1] == first;
    second := store.AddMessage("conv-2", "Alice", "hello", clock, clock, "abc");
    page := store.GetMessages("conv-2");
  }

  /** A created conversation is stored, starts empty, and its last message is the one posted to it. */
  method CreateScenario(clock: nat) returns (c: Conversation, first: Message, page: seq<Message>, stored: Option<Conversation>)
    ensures c.name == "General" && c.participants == ["Alice", "Bob"] && c.unreadCount == 0
    ensures page == [first] && first.conversationId == c.id
    ensures stored == Some(c.(lastMessage := Some(first)))
  {
    var store := new ChatService(clock);
    c := store.CreateConversation("General", ["Alice", "Bob"], clock);
    first := store.AddMessage(c.id, "Bob", "hi", clock, clock, "abc");
    page := store.GetMessages(c.id);
    stored := store.GetConversation(c.id);
  }

  /**
   * Two conversations created at the same clock reading get the same id, so
   * the second replaces the first: looking the id up finds only the second.
   */
  method SameInstantCreateScenario(clock: nat) returns (first: Conversation, second: Conversation, stored: Option<Conversation>)
    ensures first.id == second.id && first.name == "Design" && second.name == "Launch"
    ensures stored == Some(second) && stored != Some(first)
  {
    var store := new ChatService(clock);
    first := store.CreateConversation("Design", ["Alice"], clock);
    second := store.CreateConversation("Launch", ["Bob"], clock);
    stored := store.GetConversation(first.id);
  }

  /** A message for a conversation id nobody created gets a history of its own, but no conversation appears. */
  method StrayMessageScenario(clock: nat) returns (page: seq<Message>, stored: Option<Conversation>)
    ensures |page| == 1 && page[0].conversationId == "nowhere" && page[0].sender == "Eve"
    ensures stored == None
  {
    var store := new ChatService(clock);
    var stray := store.AddMessage("nowhere", "Eve", "anyone?", clock, clock, "abc");
    page := store.GetMessages("nowhere");
    stored := store.GetConversation("nowhere");
  }

  /** A duplicate-free list of keys of a set has as many elements as the set. */
  lemma {:induction false} DistinctKeysCount<K>(keys: seq<K>, ks: set<K>)
    requires forall i, j :: 0 <= i < j < |keys| ==> keys[i] != keys[j]
    requires forall k :: k in ks <==> k in keys
    ensures |keys| == |ks|
  {
    if keys != [] {
      var rest := keys[1..];
      forall k | k in rest ensures k in ks - {keys[0]} {
        var j :| 0 <= j < |rest| && rest[j] == k;
        assert keys[j + 1] == k;
      }
      DistinctKeysCount(rest, ks - {keys[0]});
    }
  }

  /** Appending a message whose id occurs nowhere keeps every id in the store unique. */
  lemma AppendKeepsIdsUnique(msgs: map<string, seq<Message>>, cid: string, m: Message)
    requires IdsUnique(msgs)
    requires forall id, i :: id in msgs && 0 <= i < |msgs[id]| ==> msgs[id][i].id != m.id
    ensures IdsUnique(msgs[cid := (if cid in msgs then msgs[cid] else []) + [m]])
  {
  }
}
