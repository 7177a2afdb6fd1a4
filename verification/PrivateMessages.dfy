/** The private-message router: sending a message, the conversation summary
    of one user (one entry per counterpart, holding the latest message), and
    the thread between two users. Both queries are aggregation pipelines,
    modelled stage by stage over the archive in natural order. */
module PrivateMessages {
  import opened Sequences
  import opened Store

  /** The JSON body of a send request; an absent field is the empty string
      (both are falsy). */
  datatype SendRequest = SendRequest(senderId: string, receiverUsername: string, content: string)

  /** POST `/`: looks the receiver up by username, checks the fields, and
      inserts the message under `id`, created at `now`. Returns the reply and
      the new archive. */
  function Send(users: seq<User>, archive: seq<PrivateMessage>, req: SendRequest, id: ObjectId, now: Time)
    : (r: (Reply<ObjectId>, seq<PrivateMessage>))
    ensures r.0.Err? ==> r.0.status == 400 && r.1 == archive
    ensures Find(users, HasUsername(req.receiverUsername)).None? ==> r.0 == Err(400, "Receiver not found.")
    ensures r.0.Ok? <==>
      && Find(users, HasUsername(req.receiverUsername)).Some?
      && req.senderId != "" && req.content != "" && ParseObjectId(req.senderId).Some?
    ensures r.0.Ok? ==>
      && r.0 == Ok(201, id)
      && r.1 == archive + [PrivateMessage(id, ParseObjectId(req.senderId).value,
                                          Find(users, HasUsername(req.receiverUsername)).value.id,
                                          req.content, now)]
  {
    match Find(users, HasUsername(req.receiverUsername))
    case None => (Err(400, "Receiver not found."), archive)
    case Some(receiver) =>
      if req.senderId == "" || req.content == "" then
        (Err(400, "senderId, receiverId and content are required."), archive)
      else match ParseObjectId(req.senderId)
        case None => (Err(400, "Invalid user ID."), archive)
        case Some(sender) =>
          (Ok(201, id), archive + [PrivateMessage(id, sender, receiver.id, req.content, now)])
  }

  // ---------------------------------------------------------------------------
  // GET /conversations/:userId

  /** The `$group` key: the two participants, smaller id first. */
  function Participants(m: PrivateMessage): (r: (ObjectId, ObjectId))
    ensures r.0 <= r.1
    ensures {r.0, r.1} == {m.senderId, m.receiverId}
  {
    Ordered(m.senderId, m.receiverId)
  }

  function Ordered(a: ObjectId, b: ObjectId): (ObjectId, ObjectId) {
    if a > b then (b, a) else (a, b)
  }

  /** The `$match` stage: the viewer sent or received the message. */
  function Involves(viewer: ObjectId): PrivateMessage -> bool {
    (m: PrivateMessage) => m.senderId == viewer || m.receiverId == viewer
  }

  /** The other participant: the receiver when the viewer sent the message,
      otherwise the sender. */
  function Counterpart(m: PrivateMessage, viewer: ObjectId): ObjectId {
    if m.senderId == viewer then m.receiverId else m.senderId
  }

  function NegCreatedAt(m: PrivateMessage): int { -m.createdAt }

  datatype LastMessage = LastMessage(
    id: ObjectId, senderId: ObjectId, receiverId: ObjectId, content: string, timestamp: Time)

  /** One element of the reply. `participants` is the `$group` key
      `_id: {participants: [...]}`, which no `$project` stage excludes. */
  datatype Conversation = Conversation(
    participants: (ObjectId, ObjectId), id: ObjectId, userId: ObjectId, userName: string, userUsername: string, userImage: string,
    lastMessage: LastMessage)

  function NegLastTimestamp(c: Conversation): int { -c.lastMessage.timestamp }

  function Summary(m: PrivateMessage): LastMessage {
    LastMessage(m.id, m.senderId, m.receiverId, m.content, m.createdAt)
  }

  /** The `$lookup` of the counterpart by `_id`, `$unwind` (which drops a group
      whose counterpart has no user) and the final `$project`. */
  function Summarize(users: seq<User>, viewer: ObjectId): PrivateMessage -> Option<Conversation> {
    (m: PrivateMessage) =>
      match Find(users, HasId(Counterpart(m, viewer)))
      case None => None
      case Some(u) => Some(Conversation(Participants(m), u.id, u.id, u.name, u.username, u.imageURL, Summary(m)))
  }

  /** The viewer's messages, newest first. */
  function LatestFirst(archive: seq<PrivateMessage>, viewer: ObjectId): seq<PrivateMessage> {
    SortBy(Filter(archive, Involves(viewer)), NegCreatedAt)
  }

  /** One message per participant pair: the first, that is the newest. */
  function Groups(archive: seq<PrivateMessage>, viewer: ObjectId): seq<PrivateMessage> {
    FirstPerKey(LatestFirst(archive, viewer), Participants)
  }

  function Resolved(users: seq<User>, archive: seq<PrivateMessage>, viewer: ObjectId): seq<Conversation> {
    FilterMap(Groups(archive, viewer), Summarize(users, viewer))
  }

  /** The whole pipeline, ending with the sort by `lastMessage.timestamp` descending. */
  function ConversationsOf(users: seq<User>, archive: seq<PrivateMessage>, viewer: ObjectId): seq<Conversation> {
    SortBy(Resolved(users, archive, viewer), NegLastTimestamp)
  }

  /** GET `/conversations/:userId`. */
  function Conversations(users: seq<User>, archive: seq<PrivateMessage>, userId: string): (r: Reply<seq<Conversation>>)
    ensures ParseObjectId(userId).None? <==> r == Err(400, "Invalid user ID")
    ensures r.Ok? ==> r.status == 200 && r.body == ConversationsOf(users, archive, ParseObjectId(userId).value)
  {
    match ParseObjectId(userId)
    case None => Err(400, "Invalid user ID")
    case Some(viewer) => Ok(200, ConversationsOf(users, archive, viewer))
  }

  /** For a message of the viewer, the group key is fixed by the counterpart. */
  lemma ParticipantsOfCounterpart(m: PrivateMessage, viewer: ObjectId)
    requires Involves(viewer)(m)
    ensures Participants(m) == Ordered(viewer, Counterpart(m, viewer))
  {
  }

  lemma OrderedInjective(viewer: ObjectId, a: ObjectId, b: ObjectId)
    requires Ordered(viewer, a) == Ordered(viewer, b)
    ensures a == b
  {
  }

  /** Every group is a message of the viewer, taken from the archive. */
  lemma GroupSource(archive: seq<PrivateMessage>, viewer: ObjectId, k: nat) returns (i: nat)
    requires k < |Groups(archive, viewer)|
    ensures var m := Groups(archive, viewer)[k];
      && m in archive && Involves(viewer)(m)
      && i < |LatestFirst(archive, viewer)| && LatestFirst(archive, viewer)[i] == m
      && forall j :: 0 <= j < i ==> Participants(LatestFirst(archive, viewer)[j]) != Participants(m)
  {
    var m := Groups(archive, viewer)[k];
    i := FirstPerKeyIndex(LatestFirst(archive, viewer), Participants, m);
    LatestFirstSource(archive, viewer, i);
  }

  /** Every entry of the newest-first list is a message of the viewer from the archive. */
  lemma LatestFirstSource(archive: seq<PrivateMessage>, viewer: ObjectId, i: nat)
    requires i < |LatestFirst(archive, viewer)|
    ensures LatestFirst(archive, viewer)[i] in archive && Involves(viewer)(LatestFirst(archive, viewer)[i])
  {
    var matched := Filter(archive, Involves(viewer));
    var m := LatestFirst(archive, viewer)[i];
    SortByPermutes(matched, NegCreatedAt);
    assert m in multiset(LatestFirst(archive, viewer));
    assert m in matched;
    FilterMembers(archive, Involves(viewer));
  }

  /** A message of the viewer appears in the newest-first list. */
  lemma LatestFirstHolds(archive: seq<PrivateMessage>, viewer: ObjectId, m: PrivateMessage) returns (i: nat)
    requires m in archive && Involves(viewer)(m)
    ensures i < |LatestFirst(archive, viewer)| && LatestFirst(archive, viewer)[i] == m
  {
    var matched := Filter(archive, Involves(viewer));
    FilterMembers(archive, Involves(viewer));
    SortByPermutes(matched, NegCreatedAt);
    assert m in multiset(matched);
    assert m in LatestFirst(archive, viewer);
    i :| 0 <= i < |LatestFirst(archive, viewer)| && LatestFirst(archive, viewer)[i] == m;
  }

  /** Groups are newest first, so the final sort leaves the resolved list as it is. */
  lemma ResolvedNewestFirst(users: seq<User>, archive: seq<PrivateMessage>, viewer: ObjectId)
    ensures SortedBy(Resolved(users, archive, viewer), NegLastTimestamp)
    ensures ConversationsOf(users, archive, viewer) == Resolved(users, archive, viewer)
  {
    var matched := Filter(archive, Involves(viewer));
    SortByOrders(matched, NegCreatedAt);
    FirstPerKeyOrders(LatestFirst(archive, viewer), Participants, NegCreatedAt);
    FilterMapOrders(Groups(archive, viewer), Summarize(users, viewer), NegCreatedAt, NegLastTimestamp);
    SortByIdentity(Resolved(users, archive, viewer), NegLastTimestamp);
  }

  /** Every conversation comes from a message the viewer sent or received: it
      summarizes that message and names its counterpart's user record. */
  lemma ConversationsSound(users: seq<User>, archive: seq<PrivateMessage>, viewer: ObjectId, c: Conversation)
    returns (m: PrivateMessage)
    requires c in ConversationsOf(users, archive, viewer)
    ensures m in archive && Involves(viewer)(m)
    ensures c.lastMessage == Summary(m) && c.userId == Counterpart(m, viewer)
    ensures c.participants == Ordered(viewer, c.userId)
    ensures var u := Find(users, HasId(c.userId));
      && u.Some? && c.id == c.userId
      && c.userName == u.value.name && c.userUsername == u.value.username && c.userImage == u.value.imageURL
  {
    ResolvedNewestFirst(users, archive, viewer);
    var groups := Groups(archive, viewer);
    var k := FilterMapSource(groups, Summarize(users, viewer), c);
    var _ := GroupSource(archive, viewer, k);
    m := groups[k];
    ParticipantsOfCounterpart(m, viewer);
  }

  /** What `Summarize` keeps of the message and of the counterpart. */
  lemma SummarizeFields(users: seq<User>, viewer: ObjectId, m: PrivateMessage)
    requires Summarize(users, viewer)(m).Some?
    ensures var c := Summarize(users, viewer)(m).value;
      c.participants == Participants(m) && c.userId == Counterpart(m, viewer) && c.lastMessage == Summary(m)
  {
  }

  /** A group's message is the newest between the viewer and its counterpart. */
  lemma GroupIsNewest(archive: seq<PrivateMessage>, viewer: ObjectId, k: nat, other: PrivateMessage)
    requires k < |Groups(archive, viewer)|
    requires other in archive && Involves(viewer)(other)
    requires Counterpart(other, viewer) == Counterpart(Groups(archive, viewer)[k], viewer)
    ensures other.createdAt <= Groups(archive, viewer)[k].createdAt
  {
    var latest := LatestFirst(archive, viewer);
    var m := Groups(archive, viewer)[k];
    var i := GroupSource(archive, viewer, k);
    var j := LatestFirstHolds(archive, viewer, other);
    ParticipantsOfCounterpart(m, viewer);
    ParticipantsOfCounterpart(other, viewer);
    assert Participants(latest[j]) == Participants(m);
    SortByOrders(Filter(archive, Involves(viewer)), NegCreatedAt);
    assert NegCreatedAt(latest[i]) <= NegCreatedAt(latest[j]);
  }

  /** Each conversation holds the newest message between the viewer and its counterpart. */
  lemma ConversationsLatest(users: seq<User>, archive: seq<PrivateMessage>, viewer: ObjectId,
                            c: Conversation, other: PrivateMessage)
    requires c in ConversationsOf(users, archive, viewer)
    requires other in archive && Involves(viewer)(other) && Counterpart(other, viewer) == c.userId
    ensures other.createdAt <= c.lastMessage.timestamp
  {
    ResolvedNewestFirst(users, archive, viewer);
    var groups := Groups(archive, viewer);
    var k := FilterMapSource(groups, Summarize(users, viewer), c);
    SummarizeFields(users, viewer, groups[k]);
    GroupIsNewest(archive, viewer, k, other);
  }

  /** Two groups never name the same counterpart. */
  lemma GroupsDistinctCounterparts(archive: seq<PrivateMessage>, viewer: ObjectId, a: nat, b: nat)
    requires a < b < |Groups(archive, viewer)|
    ensures Counterpart(Groups(archive, viewer)[a], viewer) != Counterpart(Groups(archive, viewer)[b], viewer)
  {
    var groups := Groups(archive, viewer);
    var latest := LatestFirst(archive, viewer);
    FirstPerKeyDistinct(latest, Participants);
    DistinctKeysAt(groups, Participants, a, b);
    var _ := GroupSource(archive, viewer, a);
    var _ := GroupSource(archive, viewer, b);
    ParticipantsOfCounterpart(groups[a], viewer);
    ParticipantsOfCounterpart(groups[b], viewer);
  }

  /** No counterpart appears in two conversations. */
  lemma ConversationsDistinct(users: seq<User>, archive: seq<PrivateMessage>, viewer: ObjectId)
    ensures var r := ConversationsOf(users, archive, viewer);
      forall i, j :: 0 <= i < j < |r| ==> r[i].userId != r[j].userId
  {
    ResolvedNewestFirst(users, archive, viewer);
    ResolvedDistinct(users, archive, viewer);
  }

  lemma ResolvedDistinct(users: seq<User>, archive: seq<PrivateMessage>, viewer: ObjectId)
    ensures var r := Resolved(users, archive, viewer);
      forall i, j :: 0 <= i < j < |r| ==> r[i].userId != r[j].userId
  {
    var groups := Groups(archive, viewer);
    var f := Summarize(users, viewer);
    forall a, b | 0 <= a < b < |groups| && f(groups[a]).Some? && f(groups[b]).Some?
      ensures UserIdOf(f(groups[a]).value) != UserIdOf(f(groups[b]).value)
    {
      SummarizeFields(users, viewer, groups[a]);
      SummarizeFields(users, viewer, groups[b]);
      GroupsDistinctCounterparts(archive, viewer, a, b);
    }
    FilterMapDistinct(groups, f, UserIdOf);
    var r := FilterMap(groups, f);
    forall i, j | 0 <= i < j < |r| ensures r[i].userId != r[j].userId {
      DistinctKeysAt(r, UserIdOf, i, j);
    }
  }

  function UserIdOf(c: Conversation): ObjectId { c.userId }

  /** Every counterpart with a user record has a conversation. */
  lemma ConversationsComplete(users: seq<User>, archive: seq<PrivateMessage>, viewer: ObjectId, m: PrivateMessage)
    returns (c: Conversation)
    requires m in archive && Involves(viewer)(m)
    requires Find(users, HasId(Counterpart(m, viewer))).Some?
    ensures c in ConversationsOf(users, archive, viewer) && c.userId == Counterpart(m, viewer)
  {
    ResolvedNewestFirst(users, archive, viewer);
    var groups := Groups(archive, viewer);
    var i := LatestFirstHolds(archive, viewer, m);
    var g := FirstPerKeyCovers(LatestFirst(archive, viewer), Participants, i);
    var k :| 0 <= k < |groups| && groups[k] == g;
    var _ := GroupSource(archive, viewer, k);
    ParticipantsOfCounterpart(m, viewer);
    ParticipantsOfCounterpart(g, viewer);
    OrderedInjective(viewer, Counterpart(m, viewer), Counterpart(g, viewer));
    FilterMapKeeps(groups, Summarize(users, viewer), k);
    c := Summarize(users, viewer)(g).value;
  }

  /** Conversations are listed newest first. */
  lemma ConversationsNewestFirst(users: seq<User>, archive: seq<PrivateMessage>, viewer: ObjectId)
    ensures var r := ConversationsOf(users, archive, viewer);
      forall i, j :: 0 <= i < j < |r| ==> r[j].lastMessage.timestamp <= r[i].lastMessage.timestamp
  {
    SortByOrders(Resolved(users, archive, viewer), NegLastTimestamp);
  }

  // ---------------------------------------------------------------------------
  // GET /between/:user1Id/:user2Id

  /** The public part of a user embedded in a thread entry. */
  datatype Party = Party(id: ObjectId, name: string, username: string, imageURL: string)

  /** A projected message: `_id`, `content` and `createdAt` are kept, the
      sender and receiver ids are replaced by their users. */
  datatype ThreadEntry = ThreadEntry(id: ObjectId, content: string, createdAt: Time, sender: Party, receiver: Party)

  function PartyOf(u: User): Party {
    Party(u.id, u.name, u.username, u.imageURL)
  }

  /** The `$match` stage: a message from either user to the other. */
  function BetweenUsers(a: ObjectId, b: ObjectId): PrivateMessage -> bool {
    (m: PrivateMessage) => (m.senderId == a && m.receiverId == b) || (m.senderId == b && m.receiverId == a)
  }

  /** Both `$lookup`/`$unwind` pairs and the `$project`: a message whose sender
      or receiver has no user record is dropped. */
  function Entry(users: seq<User>): PrivateMessage -> Option<ThreadEntry> {
    (m: PrivateMessage) =>
      match (Find(users, HasId(m.senderId)), Find(users, HasId(m.receiverId)))
      case (Some(s), Some(r)) => Some(ThreadEntry(m.id, m.content, m.createdAt, PartyOf(s), PartyOf(r)))
      case _ => None
  }

  function EntryCreatedAt(e: ThreadEntry): int { e.createdAt }

  /** The whole pipeline, ending with the sort by `createdAt` ascending. */
  function ThreadOf(users: seq<User>, archive: seq<PrivateMessage>, a: ObjectId, b: ObjectId): seq<ThreadEntry> {
    SortBy(FilterMap(Filter(archive, BetweenUsers(a, b)), Entry(users)), EntryCreatedAt)
  }

  /** GET `/between/:user1Id/:user2Id`: an id that is not an ObjectId makes
      `new ObjectId` throw, which the handler answers with 500. */
  function Between(users: seq<User>, archive: seq<PrivateMessage>, user1Id: string, user2Id: string)
    : (r: Reply<seq<ThreadEntry>>)
    ensures r.Err? <==> ParseObjectId(user1Id).None? || ParseObjectId(user2Id).None?
    ensures r.Err? ==> r == Err(500, "Internal server error.")
    ensures r.Ok? ==> r.status == 200 && r.body == ThreadOf(users, archive, ParseObjectId(user1Id).value, ParseObjectId(user2Id).value)
  {
    match (ParseObjectId(user1Id), ParseObjectId(user2Id))
    case (Some(a), Some(b)) => Ok(200, ThreadOf(users, archive, a, b))
    case _ => Err(500, "Internal server error.")
  }

  /** The thread does not depend on which user is named first. */
  lemma ThreadSymmetric(users: seq<User>, archive: seq<PrivateMessage>, a: ObjectId, b: ObjectId)
    ensures ThreadOf(users, archive, a, b) == ThreadOf(users, archive, b, a)
  {
    FilterSame(archive, BetweenUsers(a, b), BetweenUsers(b, a));
  }

  /** Every entry is a message between the two users, with both users' records. */
  lemma ThreadSound(users: seq<User>, archive: seq<PrivateMessage>, a: ObjectId, b: ObjectId, e: ThreadEntry)
    returns (m: PrivateMessage)
    requires e in ThreadOf(users, archive, a, b)
    ensures m in archive && BetweenUsers(a, b)(m) && Entry(users)(m) == Some(e)
  {
    var matched := Filter(archive, BetweenUsers(a, b));
    var joined := FilterMap(matched, Entry(users));
    SortByPermutes(joined, EntryCreatedAt);
    assert e in multiset(joined);
    var i := FilterMapSource(matched, Entry(users), e);
    m := matched[i];
    FilterMembers(archive, BetweenUsers(a, b));
  }

  /** Every message between the two users whose users both exist is in the thread. */
  lemma ThreadComplete(users: seq<User>, archive: seq<PrivateMessage>, a: ObjectId, b: ObjectId, m: PrivateMessage)
    requires m in archive && BetweenUsers(a, b)(m)
    requires Find(users, HasId(m.senderId)).Some? && Find(users, HasId(m.receiverId)).Some?
    ensures Entry(users)(m).Some? && Entry(users)(m).value in ThreadOf(users, archive, a, b)
  {
    var matched := Filter(archive, BetweenUsers(a, b));
    var joined := FilterMap(matched, Entry(users));
    FilterMembers(archive, BetweenUsers(a, b));
    var i :| 0 <= i < |matched| && matched[i] == m;
    FilterMapKeeps(matched, Entry(users), i);
    SortByPermutes(joined, EntryCreatedAt);
    assert Entry(users)(m).value in multiset(ThreadOf(users, archive, a, b));
  }

  /** The thread is oldest first. */
  lemma ThreadOldestFirst(users: seq<User>, archive: seq<PrivateMessage>, a: ObjectId, b: ObjectId)
    ensures var r := ThreadOf(users, archive, a, b);
      forall i, j :: 0 <= i < j < |r| ==> r[i].createdAt <= r[j].createdAt
  {
    SortByOrders(FilterMap(Filter(archive, BetweenUsers(a, b)), Entry(users)), EntryCreatedAt);
  }
}
