/** The real-time chat room of `server.js`: a process-wide count of connected
    clients, the backlog a joining client receives, and the `sendMessage`
    handler, which stamps a message, stores it, trims the stored log to the
    100 newest messages by deleting the oldest ones one at a time, and only
    then relays the message to every client. Each handler runs as one step. */
module Chat {
  import opened Sequences
  import opened Store

  /** The number of messages the chat log keeps and a joining client receives. */
  const Cap: nat := 100

  function Min(a: nat, b: nat): nat { if a < b then a else b }

  /** A stored chat message; `timestamp` and `verified` are set by the server. */
  datatype ChatMessage = ChatMessage(id: ObjectId, username: string, text: string, timestamp: Time, verified: bool)

  /** The payload a client emits with "sendMessage". */
  datatype Outgoing = Outgoing(username: string, text: string)

  /** What the server does that others can observe, in order: broadcasts to
      every client (`io.emit`) and writes to the chat collection. */
  datatype Event =
    | UsersOnline(count: int)
    | ReceiveMessage(msg: ChatMessage)
    | Inserted(msg: ChatMessage)
    | Deleted(id: ObjectId)

  function Timestamp(m: ChatMessage): int { m.timestamp }
  function NegTimestamp(m: ChatMessage): int { -m.timestamp }
  function MessageId(m: ChatMessage): int { m.id }

  /** `user?.verified || false` for the first user with that username. */
  function VerifiedFlag(users: seq<User>, username: string): (b: bool)
    ensures b <==> exists i :: 0 <= i < |users| && users[i].username == username && users[i].verified
                              && forall j :: 0 <= j < i ==> users[j].username != username
  {
    match FirstIndex(users, HasUsername(username))
    case None => false
    case Some(i) => users[i].verified
  }

  /** The message as relayed: the payload stamped with the clock and the author's flag. */
  function Stamp(msg: Outgoing, id: ObjectId, now: Time, users: seq<User>): ChatMessage {
    ChatMessage(id, msg.username, msg.text, now, VerifiedFlag(users, msg.username))
  }

  // ---------------------------------------------------------------------------
  // Backlog: find().sort({timestamp: -1}).limit(100), then reversed

  function Backlog(log: seq<ChatMessage>): (r: seq<ChatMessage>)
    ensures |r| == Min(|log|, Cap)
  {
    var newestFirst := SortBy(log, NegTimestamp);
    Reverse(newestFirst[..Min(|log|, Cap)])
  }

  /** The backlog is the (at most) 100 messages with the largest timestamps,
      oldest first: it is ordered by timestamp, drawn from the log, and no
      message left out of it is newer than one in it. */
  lemma BacklogIsNewestOldestFirst(log: seq<ChatMessage>)
    ensures |Backlog(log)| == Min(|log|, Cap)
    ensures SortedBy(Backlog(log), Timestamp)
    ensures multiset(Backlog(log)) <= multiset(log)
    ensures forall m, b :: m in multiset(log) - multiset(Backlog(log)) && b in Backlog(log) ==>
              m.timestamp <= b.timestamp
  {
    BacklogSorted(log);
    BacklogSplit(log);
    BacklogNewest(log);
  }

  lemma BacklogSorted(log: seq<ChatMessage>)
    ensures SortedBy(Backlog(log), Timestamp)
  {
    var t, k := SortBy(log, NegTimestamp), Min(|log|, Cap);
    var r := Backlog(log);
    SortByOrders(log, NegTimestamp);
    assert r == Reverse(t[..k]);
    forall i, j | 0 <= i < j < |r| ensures r[i].timestamp <= r[j].timestamp {
      assert r[i] == t[k - 1 - i] && r[j] == t[k - 1 - j];
    }
  }

  lemma BacklogSplit(log: seq<ChatMessage>)
    ensures multiset(Backlog(log)) == multiset(SortBy(log, NegTimestamp)[..Min(|log|, Cap)])
    ensures multiset(log) - multiset(Backlog(log)) == multiset(SortBy(log, NegTimestamp)[Min(|log|, Cap)..])
    ensures multiset(Backlog(log)) <= multiset(log)
  {
    var t, k := SortBy(log, NegTimestamp), Min(|log|, Cap);
    assert multiset(Backlog(log)) == multiset(t[..k]) by {
      ReverseMultiset(t[..k]);
    }
    assert multiset(log) == multiset(t[..k]) + multiset(t[k..]) by {
      SortByPermutes(log, NegTimestamp);
      SplitMultiset(t, k);
    }
    MultisetSplit(multiset(log), multiset(t[..k]), multiset(t[k..]));
  }

  lemma BacklogNewest(log: seq<ChatMessage>)
    ensures forall m, b :: m in multiset(log) - multiset(Backlog(log)) && b in Backlog(log) ==>
              m.timestamp <= b.timestamp
  {
    var t, k := SortBy(log, NegTimestamp), Min(|log|, Cap);
    BacklogSplit(log);
    SortByOrders(log, NegTimestamp);
    forall m, b | m in multiset(log) - multiset(Backlog(log)) && b in Backlog(log)
      ensures m.timestamp <= b.timestamp
    {
      assert m in t[k..];
      assert b in multiset(t[..k]);
      SortedSplit(t, k, NegTimestamp, b, m);
    }
  }

  lemma {:induction false} ReverseMultiset<T(!new)>(s: seq<T>)
    ensures multiset(Reverse(s)) == multiset(s)
  {
    if s != [] {
      var init := s[..|s| - 1];
      ReverseMultiset(init);
      assert s == init + [s[|s| - 1]];
      assert Reverse(s) == [s[|s| - 1]] + Reverse(init);
    }
  }

  /** When the clock only moves forward, the backlog is simply the last
      (at most) 100 stored messages, in the order they were stored. */
  lemma BacklogOfOrderedLog(log: seq<ChatMessage>)
    requires StrictlyIncreasing(log, Timestamp)
    ensures Backlog(log) == log[|log| - Min(|log|, Cap)..]
  {
    forall i, j | 0 <= i < j < |log| ensures NegTimestamp(log[j]) < NegTimestamp(log[i]) {
      assert Timestamp(log[i]) < Timestamp(log[j]);
    }
    SortByStrictlyDecreasing(log, NegTimestamp);
    ReverseOfReversedPrefix(log, Min(|log|, Cap));
  }

  // ---------------------------------------------------------------------------
  // Cap eviction

  /** `deleteOne({_id: id})`: removes the first document with that id. */
  function DeleteOne(log: seq<ChatMessage>, id: ObjectId): (r: seq<ChatMessage>)
    ensures |r| <= |log|
  {
    if log == [] then []
    else if log[0].id == id then log[1..]
    else [log[0]] + DeleteOne(log[1..], id)
  }

  /** The deletions of the eviction loop, one `deleteOne` per victim, in order. */
  function DeleteAll(log: seq<ChatMessage>, victims: seq<ChatMessage>): seq<ChatMessage> {
    if victims == [] then log
    else DeleteOne(DeleteAll(log, victims[..|victims| - 1]), victims[|victims| - 1].id)
  }

  /** `find().sort({timestamp: 1}).limit(k)`: the `k` oldest messages. */
  function Oldest(log: seq<ChatMessage>, k: nat): (r: seq<ChatMessage>)
    requires k <= |log|
    ensures |r| == k
  {
    SortBy(log, Timestamp)[..k]
  }

  /** The log after the eviction step of `sendMessage`. */
  function Trim(log: seq<ChatMessage>): (r: seq<ChatMessage>)
    ensures |log| <= Cap ==> r == log
  {
    if |log| > Cap then DeleteAll(log, Oldest(log, |log| - Cap)) else log
  }

  /** The store writes of the eviction step. */
  function Evictions(log: seq<ChatMessage>): (r: seq<Event>)
    ensures |log| <= Cap ==> r == []
    ensures |log| > Cap ==> |r| == |log| - Cap
  {
    if |log| > Cap then DeletedEvents(Oldest(log, |log| - Cap)) else []
  }

  function DeletedEvents(victims: seq<ChatMessage>): (r: seq<Event>)
    ensures |r| == |victims|
    ensures forall i :: 0 <= i < |victims| ==> r[i] == Deleted(victims[i].id)
  {
    if victims == [] then []
    else DeletedEvents(victims[..|victims| - 1]) + [Deleted(victims[|victims| - 1].id)]
  }

  /** Deleting by the id of the message at index `i`, when no earlier
      message has that id, removes exactly that message. */
  lemma {:induction false} DeleteOneAt(t: seq<ChatMessage>, i: nat)
    requires i < |t| && forall j :: 0 <= j < i ==> t[j].id != t[i].id
    ensures DeleteOne(t, t[i].id) == t[..i] + t[i + 1..]
  {
    if i > 0 {
      var tail := t[1..];
      assert tail[i - 1] == t[i];
      forall j | 0 <= j < i - 1 ensures tail[j].id != tail[i - 1].id {
        assert tail[j] == t[j + 1];
      }
      DeleteOneAt(tail, i - 1);
      assert [t[0]] + (tail[..i - 1] + tail[i..]) == t[..i] + t[i + 1..];
    }
  }

  /** Deleting a stored message by id removes exactly that message and keeps
      the rest in insertion order. */
  lemma DeleteOneRemoves(t: seq<ChatMessage>, v: ChatMessage)
    requires StrictlyIncreasing(t, MessageId) && v in t
    ensures multiset(DeleteOne(t, v.id)) == multiset(t) - multiset{v}
    ensures |DeleteOne(t, v.id)| == |t| - 1
    ensures StrictlyIncreasing(DeleteOne(t, v.id), MessageId)
  {
    var i :| 0 <= i < |t| && t[i] == v;
    forall j | 0 <= j < i ensures t[j].id != t[i].id {
      assert t[j].id < t[i].id;
    }
    DeleteOneAt(t, i);
    RemoveAtPermutes(t, i);
    RemoveAtIncreasing(t, i, MessageId);
  }

  /** Deleting the victims one by one removes exactly the victims. */
  lemma {:induction false} DeleteAllRemoves(s: seq<ChatMessage>, vs: seq<ChatMessage>)
    requires StrictlyIncreasing(s, MessageId) && multiset(vs) <= multiset(s)
    ensures multiset(DeleteAll(s, vs)) == multiset(s) - multiset(vs)
    ensures |DeleteAll(s, vs)| == |s| - |vs|
    ensures StrictlyIncreasing(DeleteAll(s, vs), MessageId)
  {
    if vs != [] {
      var ws, v := vs[..|vs| - 1], vs[|vs| - 1];
      LastMultiset(vs);
      MultisetRemaining(multiset(s), multiset(ws), v);
      DeleteAllRemoves(s, ws);
      DeleteOneRemoves(DeleteAll(s, ws), v);
    }
  }

  /** The eviction keeps min(total, 100) messages. */
  lemma TrimSize(s: seq<ChatMessage>)
    requires StrictlyIncreasing(s, MessageId)
    ensures |Trim(s)| == Min(|s|, Cap)
  {
    if |s| > Cap {
      TrimRemovesOldest(s);
    }
  }

  lemma OldestAreStored(s: seq<ChatMessage>, k: nat)
    requires k <= |s|
    ensures multiset(Oldest(s, k)) <= multiset(s)
  {
    SortByPermutes(s, Timestamp);
    SplitMultiset(SortBy(s, Timestamp), k);
  }

  /** When the total exceeds 100, exactly `total - 100` messages are deleted,
      and none of them is newer than a message that stays. */
  lemma TrimEvictsOldest(s: seq<ChatMessage>)
    requires StrictlyIncreasing(s, MessageId) && |s| > Cap
    ensures |Oldest(s, |s| - Cap)| == |s| - Cap
    ensures multiset(Trim(s)) + multiset(Oldest(s, |s| - Cap)) == multiset(s)
    ensures forall e, m :: e in Oldest(s, |s| - Cap) && m in Trim(s) ==> e.timestamp <= m.timestamp
  {
    var t, k := SortBy(s, Timestamp), |s| - Cap;
    TrimIsSortedSuffix(s);
    SortByOrders(s, Timestamp);
    forall e, m | e in Oldest(s, k) && m in Trim(s) ensures e.timestamp <= m.timestamp {
      assert m in multiset(t[k..]);
      SortedSplit(t, k, Timestamp, e, m);
    }
  }

  /** What eviction keeps is, as a multiset, the part of the log after the
      `total - 100` oldest in timestamp order. */
  lemma TrimIsSortedSuffix(s: seq<ChatMessage>)
    requires StrictlyIncreasing(s, MessageId) && |s| > Cap
    ensures multiset(Trim(s)) == multiset(SortBy(s, Timestamp)[|s| - Cap..])
    ensures multiset(Trim(s)) + multiset(Oldest(s, |s| - Cap)) == multiset(s)
  {
    var k := |s| - Cap;
    TrimRemovesOldest(s);
    OldestSplit(s, k);
    MultisetCancel(multiset(Trim(s)), multiset(s), multiset(Oldest(s, k)), multiset(SortBy(s, Timestamp)[k..]));
  }

  /** The `k` oldest and the rest of the timestamp order make up the log. */
  lemma OldestSplit(s: seq<ChatMessage>, k: nat)
    requires k <= |s|
    ensures multiset(s) == multiset(Oldest(s, k)) + multiset(SortBy(s, Timestamp)[k..])
  {
    SortByPermutes(s, Timestamp);
    SplitMultiset(SortBy(s, Timestamp), k);
  }

  /** The eviction deletes exactly the `total - 100` oldest messages. */
  lemma TrimRemovesOldest(s: seq<ChatMessage>)
    requires StrictlyIncreasing(s, MessageId) && |s| > Cap
    ensures multiset(Oldest(s, |s| - Cap)) <= multiset(s)
    ensures multiset(Trim(s)) == multiset(s) - multiset(Oldest(s, |s| - Cap))
    ensures |Trim(s)| == Cap
    ensures StrictlyIncreasing(Trim(s), MessageId)
  {
    OldestAreStored(s, |s| - Cap);
    DeleteAllRemoves(s, Oldest(s, |s| - Cap));
  }

  /** Eviction keeps the surviving messages in insertion order and adds none. */
  lemma TrimKeepsOrder(s: seq<ChatMessage>)
    requires StrictlyIncreasing(s, MessageId)
    ensures StrictlyIncreasing(Trim(s), MessageId)
    ensures multiset(Trim(s)) <= multiset(s)
  {
    if |s| > Cap {
      TrimRemovesOldest(s);
    }
  }

  /** The message just appended, stamped later than every stored one,
      survives the eviction and is the last message of the log. */
  lemma TrimKeepsNewest(p: seq<ChatMessage>, m: ChatMessage)
    requires StrictlyIncreasing(p + [m], MessageId)
    requires forall i :: 0 <= i < |p| ==> p[i].timestamp < m.timestamp
    ensures |Trim(p + [m])| > 0 && Trim(p + [m])[|Trim(p + [m])| - 1] == m
  {
    NewestNotEvicted(p, m);
    TrimIdsBounded(p + [m]);
    TrimKeepsOrder(p + [m]);
    LastById(Trim(p + [m]), m);
  }

  /** No message kept by the eviction has an id above the last stored one. */
  lemma TrimIdsBounded(s: seq<ChatMessage>)
    requires StrictlyIncreasing(s, MessageId) && |s| > 0
    ensures forall x :: x in Trim(s) ==> x.id <= s[|s| - 1].id
  {
    TrimKeepsOrder(s);
    StrictlyIncreasingMax(s, MessageId);
    forall x | x in Trim(s) ensures x.id <= s[|s| - 1].id {
      assert x in multiset(s);
      assert MessageId(x) <= MessageId(s[|s| - 1]);
    }
  }

  /** A message stamped later than every stored one is never evicted. */
  lemma NewestNotEvicted(p: seq<ChatMessage>, m: ChatMessage)
    requires StrictlyIncreasing(p + [m], MessageId)
    requires forall i :: 0 <= i < |p| ==> p[i].timestamp < m.timestamp
    ensures m in Trim(p + [m])
  {
    var s := p + [m];
    if |s| > Cap {
      var k := |s| - Cap;
      NewestIsFresh(p, m);
      OldestOfAppendMax(p, m, k);
      SortByPermutes(p, Timestamp);
      SplitMultiset(SortBy(p, Timestamp), k);
      assert m in multiset(s);
      TrimKeepsSurvivor(s, m);
    }
  }

  lemma NewestIsFresh(p: seq<ChatMessage>, m: ChatMessage)
    requires StrictlyIncreasing(p + [m], MessageId)
    ensures m !in multiset(p)
  {
    var s := p + [m];
    forall i | 0 <= i < |p| ensures p[i] != m {
      assert s[i] == p[i] && s[|p|] == m;
    }
  }

  lemma OldestOfAppendMax(p: seq<ChatMessage>, m: ChatMessage, k: nat)
    requires forall i :: 0 <= i < |p| ==> p[i].timestamp <= m.timestamp
    requires k <= |p|
    ensures Oldest(p + [m], k) == SortBy(p, Timestamp)[..k]
  {
    SortByAppendMax(p, m, Timestamp);
    TakeAppend(SortBy(p, Timestamp), m, k);
  }

  /** A stored message that is not among the oldest survives eviction. */
  lemma TrimKeepsSurvivor(s: seq<ChatMessage>, x: ChatMessage)
    requires StrictlyIncreasing(s, MessageId) && |s| > Cap
    requires x in multiset(s) && x !in multiset(Oldest(s, |s| - Cap))
    ensures x in Trim(s)
  {
    TrimRemovesOldest(s);
    assert x in multiset(Trim(s));
  }

  lemma LastById(r: seq<ChatMessage>, m: ChatMessage)
    requires StrictlyIncreasing(r, MessageId) && m in r
    requires forall x :: x in r ==> x.id <= m.id
    ensures |r| > 0 && r[|r| - 1] == m
  {
    var i :| 0 <= i < |r| && r[i] == m;
    var last := r[|r| - 1];
    assert last in r;
    assert i == |r| - 1;
  }

  /** When every message is stamped later than the one before, eviction
      keeps exactly the last 100 messages stored, in the order they were stored. */
  lemma TrimOrderedLog(s: seq<ChatMessage>)
    requires StrictlyIncreasing(s, MessageId) && StrictlyIncreasing(s, Timestamp)
    ensures Trim(s) == s[|s| - Min(|s|, Cap)..]
  {
    if |s| > Cap {
      assert SortedBy(s, Timestamp);
      SortByIdentity(s, Timestamp);
      DeletePrefix(s, |s| - Cap);
    }
  }

  lemma {:induction false} DeletePrefix(s: seq<ChatMessage>, k: nat)
    requires StrictlyIncreasing(s, MessageId) && k <= |s|
    ensures DeleteAll(s, s[..k]) == s[k..]
  {
    if k > 0 {
      assert s[..k][..k - 1] == s[..k - 1];
      DeletePrefix(s, k - 1);
    }
  }

  /** Appending a message with a fresh, larger id keeps ids increasing. */
  lemma AppendFresh(s: seq<ChatMessage>, m: ChatMessage)
    requires StrictlyIncreasing(s, MessageId) && forall x :: x in s ==> x.id < m.id
    ensures StrictlyIncreasing(s + [m], MessageId)
    ensures forall x :: x in s + [m] ==> x.id < m.id + 1
  {
    var r := s + [m];
    forall i, j | 0 <= i < j < |r| ensures r[i].id < r[j].id {
      assert r[i] == s[i];
      if j < |s| { assert r[j] == s[j]; } else { assert s[i] in s; }
    }
  }

  lemma DeleteAllSnoc(log: seq<ChatMessage>, vs: seq<ChatMessage>, v: ChatMessage)
    ensures DeleteAll(log, vs + [v]) == DeleteOne(DeleteAll(log, vs), v.id)
  {
    assert (vs + [v])[..|vs|] == vs;
  }

  lemma DeletedEventsSnoc(vs: seq<ChatMessage>, v: ChatMessage)
    ensures DeletedEvents(vs + [v]) == DeletedEvents(vs) + [Deleted(v.id)]
  {
    assert (vs + [v])[..|vs|] == vs;
  }

  /** The eviction step of `sendMessage`: when more than 100 messages are
      stored, look up the `total - 100` oldest and delete them one by one. */
  method EvictOldest(stored: seq<ChatMessage>) returns (kept: seq<ChatMessage>, deletions: seq<Event>)
    ensures kept == Trim(stored) && deletions == Evictions(stored)
  {
    kept, deletions := stored, [];
    if |stored| > Cap {
      var oldMessages := Oldest(stored, |stored| - Cap);
      var i := 0;
      while i < |oldMessages|
        invariant 0 <= i <= |oldMessages|
        invariant kept == DeleteAll(stored, oldMessages[..i])
        invariant deletions == DeletedEvents(oldMessages[..i])
      {
        TakeNext(oldMessages, i);
        DeleteAllSnoc(stored, oldMessages[..i], oldMessages[i]);
        DeletedEventsSnoc(oldMessages[..i], oldMessages[i]);
        kept := DeleteOne(kept, oldMessages[i].id);
        deletions := deletions + [Deleted(oldMessages[i].id)];
        i := i + 1;
      }
      TakeAll(oldMessages);
    }
  }

  /** Eviction restores the server's invariant after an insertion. */
  lemma TrimPreservesValid(s: seq<ChatMessage>, nextId: ObjectId)
    requires StrictlyIncreasing(s, MessageId) && forall m :: m in s ==> m.id < nextId
    ensures |Trim(s)| <= Cap && StrictlyIncreasing(Trim(s), MessageId)
    ensures forall m :: m in Trim(s) ==> m.id < nextId
  {
    TrimSize(s);
    TrimKeepsOrder(s);
    forall m | m in Trim(s) ensures m.id < nextId {
      assert m in multiset(s);
    }
  }

  // ---------------------------------------------------------------------------
  // The server

  class ChatServer {
    /** The chat collection, in insertion order. */
    var log: seq<ChatMessage>
    /** `connectedUsers`: incremented on connection, decremented on disconnect, never clamped. */
    var connectedUsers: int
    /** Broadcasts and store writes so far. */
    var events: seq<Event>
    /** The ObjectId the next inserted message receives. */
    var nextId: ObjectId

    /** Ids grow in insertion order and stay below the generator. The chat
        collection outlives the server, so its size is not bounded here:
        every send trims it back to 100. */
    ghost predicate Valid()
      reads this
    {
      StrictlyIncreasing(log, MessageId) && forall m :: m in log ==> m.id < nextId
    }

    /** Server start: `connectedUsers = 0`, over the chat collection as it
        was left, of any size. */
    constructor (stored: seq<ChatMessage>, firstId: ObjectId)
      requires StrictlyIncreasing(stored, MessageId) && forall m :: m in stored ==> m.id < firstId
      ensures Valid()
      ensures log == stored && nextId == firstId && connectedUsers == 0 && events == []
    {
      log, connectedUsers, events, nextId := stored, 0, [], firstId;
    }

    /** `io.on("connection")`: count the client, broadcast the count, and hand
        the new client the backlog. */
    method Connect() returns (backlog: seq<ChatMessage>)
      modifies this`connectedUsers, this`events
      ensures connectedUsers == old(connectedUsers) + 1
      ensures events == old(events) + [UsersOnline(connectedUsers)]
      ensures backlog == Backlog(log)
    {
      connectedUsers := connectedUsers + 1;
      events := events + [UsersOnline(connectedUsers)];
      var newestFirst := SortBy(log, NegTimestamp);
      backlog := Reverse(newestFirst[..Min(|log|, Cap)]);
    }

    /** `socket.on("sendMessage")`: stamp, store, trim to 100, then relay. */
    method SendMessage(msg: Outgoing, now: Time, users: seq<User>)
      requires Valid()
      modifies this`log, this`events, this`nextId
      ensures Valid() && |log| <= Cap
      ensures nextId == old(nextId) + 1
      ensures var stamped := Stamp(msg, old(nextId), now, users);
        && log == Trim(old(log) + [stamped])
        && events == old(events) + [Inserted(stamped)] + Evictions(old(log) + [stamped]) + [ReceiveMessage(stamped)]
    {
      var id := nextId;
      var stamped := Stamp(msg, id, now, users);
      AppendFresh(log, stamped);
      var stored := log + [stamped];
      var kept, deletions := EvictOldest(stored);
      TrimPreservesValid(stored, id + 1);
      log, nextId := kept, id + 1;
      events := events + [Inserted(stamped)] + deletions + [ReceiveMessage(stamped)];
    }

    /** `io.on("disconnect")`: uncount a client and broadcast the count. The
        handler is registered on the server rather than on a socket, so
        socket.io never calls it; it is modelled as written. */
    method Disconnect()
      modifies this`connectedUsers, this`events
      ensures connectedUsers == old(connectedUsers) - 1
      ensures events == old(events) + [UsersOnline(connectedUsers)]
    {
      connectedUsers := connectedUsers - 1;
      events := events + [UsersOnline(connectedUsers)];
    }
  }
}
