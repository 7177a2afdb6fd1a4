/** `/:username/follow` and `/:username/unfollow`: after the same guards,
    a follow pushes one reference onto the target's `followers` and one onto
    the follower's `following`, and an unfollow pulls every matching
    reference from both lists. Following is decided by the raw `followerId`
    string being the `id` of an entry of the target's `followers`. */
module Follows {
  import opened Sequences
  import opened Store

  /** The JSON body of a follow request; an absent field is the empty string. */
  datatype FollowRequest = FollowRequest(
    followerId: string, followerName: string, followerUsername: string, followerImageURL: string)

  /** The body of a successful follow: the message and both references. */
  datatype Followed = Followed(message: string, follower: FollowRef, target: FollowRef)

  /** The body of a successful unfollow. */
  datatype Unfollowed = Unfollowed(message: string, unfollowedUserUsername: string)

  /** The outcome of the guards the two routes share: the indexes of the
      target and of the follower, or the error reply. */
  datatype Lookup = Found(target: nat, follower: nat) | Refused(status: nat, message: string)

  /** The entry pushed onto the target's `followers`. */
  function FollowerRef(req: FollowRequest): FollowRef {
    FollowRef(req.followerId, req.followerName, req.followerUsername, req.followerImageURL)
  }

  /** The entry pushed onto the follower's `following`: the target's id as a string. */
  function TargetRef(u: User): FollowRef {
    FollowRef(ObjectIdString(u.id), u.name, u.username, u.imageURL)
  }

  /** `user.followers.some(f => f.id === followerId)`. */
  predicate FollowedBy(u: User, followerId: string) {
    exists k :: 0 <= k < |u.followers| && u.followers[k].id == followerId
  }

  /** The entries a `$pull` with `{id}` leaves in place. */
  function OtherId(id: string): FollowRef -> bool {
    (f: FollowRef) => f.id != id
  }

  /** The shared guards: both parameters present, a well-formed follower id,
      then `findOne` of the target by username and of the follower by `_id`. */
  function Locate(users: seq<User>, targetUsername: string, followerId: string): (r: Lookup)
    ensures r.Found? ==> r.target < |users| && r.follower < |users|
  {
    if followerId == "" || targetUsername == "" then
      Refused(400, "Follower ID and Target username are required.")
    else match ParseObjectId(followerId)
      case None => Refused(400, "Invalid follower ID.")
      case Some(oid) =>
        match (FirstIndex(users, HasUsername(targetUsername)), FirstIndex(users, HasId(oid)))
        case (Some(i), Some(j)) => Found(i, j)
        case _ => Refused(404, "User not found.")
  }

  /** The guards in their order, the two replies they can refuse with, and
      the users they find: the first with the target username and the first
      with the follower's id. */
  lemma LocateGuards(users: seq<User>, targetUsername: string, followerId: string)
    ensures var r := Locate(users, targetUsername, followerId);
      && (followerId == "" || targetUsername == "" ==>
            r == Refused(400, "Follower ID and Target username are required."))
      && (followerId != "" && targetUsername != "" && ParseObjectId(followerId).None? ==>
            r == Refused(400, "Invalid follower ID."))
      && (r.Refused? && r.status != 400 ==> r == Refused(404, "User not found."))
      && (r.Found? ==>
            && users[r.target].username == targetUsername
            && (forall k :: 0 <= k < r.target ==> users[k].username != targetUsername)
            && ParseObjectId(followerId) == Some(users[r.follower].id)
            && (forall k :: 0 <= k < r.follower ==> users[k].id != users[r.follower].id))
      && (r.Found? <==>
            && followerId != "" && targetUsername != "" && ParseObjectId(followerId).Some?
            && (exists k :: 0 <= k < |users| && users[k].username == targetUsername)
            && (exists k :: 0 <= k < |users| && Some(users[k].id) == ParseObjectId(followerId)))
  {
  }

  /** Two collections whose users have the same ids and usernames, index by
      index, answer the guards alike. */
  lemma LocateSame(users: seq<User>, other: seq<User>, targetUsername: string, followerId: string)
    requires |other| == |users|
    requires forall k :: 0 <= k < |users| ==> other[k].id == users[k].id && other[k].username == users[k].username
    ensures Locate(other, targetUsername, followerId) == Locate(users, targetUsername, followerId)
  {
    FirstIndexSame(users, other, HasUsername(targetUsername));
    if ParseObjectId(followerId).Some? {
      FirstIndexSame(users, other, HasId(ParseObjectId(followerId).value));
    }
  }

  /** POST `/:username/follow`: the reply and the new users collection. */
  function FollowStep(users: seq<User>, targetUsername: string, req: FollowRequest)
    : (r: (Reply<Followed>, seq<User>))
    ensures r.0.Err? ==> r.1 == users
    ensures |r.1| == |users|
  {
    match Locate(users, targetUsername, req.followerId)
    case Refused(status, message) => (Err(status, message), users)
    case Found(i, j) => FollowAt(users, i, j, req)
  }

  /** The follow once the target (index `i`) and the follower (index `j`)
      are found: refused when the target lists the follower id already,
      otherwise the two `$push` updates in order. */
  function FollowAt(users: seq<User>, i: nat, j: nat, req: FollowRequest): (r: (Reply<Followed>, seq<User>))
    requires i < |users| && j < |users|
    ensures r.0.Err? ==> r == (Err(400, "You are already following this user."), users)
    ensures r.0.Ok? <==> !FollowedBy(users[i], req.followerId)
    ensures |r.1| == |users|
  {
    var target := users[i];
    if FollowedBy(target, req.followerId) then (Err(400, "You are already following this user."), users)
    else
      var once := users[i := target.(followers := target.followers + [FollowerRef(req)])];
      var after := once[j := once[j].(following := once[j].following + [TargetRef(target)])];
      (Ok(200, Followed("Successfully followed " + target.username, FollowerRef(req), TargetRef(target))), after)
  }

  /** A follow appends exactly one entry to the target's `followers` and one
      to the follower's `following`, and changes nothing else. */
  lemma FollowAppends(users: seq<User>, i: nat, j: nat, req: FollowRequest)
    requires i < |users| && j < |users| && FollowAt(users, i, j, req).0.Ok?
    ensures var after := FollowAt(users, i, j, req).1;
            && after[i].followers == users[i].followers + [FollowerRef(req)]
            && after[j].following == users[j].following + [TargetRef(users[i])]
            && (forall k :: 0 <= k < |users| && k != i ==> after[k].followers == users[k].followers)
            && (forall k :: 0 <= k < |users| && k != j ==> after[k].following == users[k].following)
            && (forall k :: 0 <= k < |users| ==>
                  after[k] == users[k].(followers := after[k].followers, following := after[k].following))
  {
  }

  /** POST `/:username/unfollow`: the reply and the new users collection. */
  function UnfollowStep(users: seq<User>, targetUsername: string, followerId: string)
    : (r: (Reply<Unfollowed>, seq<User>))
    ensures r.0.Err? ==> r.1 == users
    ensures |r.1| == |users|
  {
    match Locate(users, targetUsername, followerId)
    case Refused(status, message) => (Err(status, message), users)
    case Found(i, j) => UnfollowAt(users, i, j, targetUsername, followerId)
  }

  /** The unfollow once the target (index `i`) and the follower (index `j`)
      are found: refused unless the target lists the follower id, otherwise
      the two `$pull` updates in order. */
  function UnfollowAt(users: seq<User>, i: nat, j: nat, targetUsername: string, followerId: string)
    : (r: (Reply<Unfollowed>, seq<User>))
    requires i < |users| && j < |users|
    ensures r.0.Err? ==> r == (Err(400, "You are not following this user."), users)
    ensures r.0.Ok? <==> FollowedBy(users[i], followerId)
    ensures |r.1| == |users|
  {
    var target := users[i];
    if !FollowedBy(target, followerId) then (Err(400, "You are not following this user."), users)
    else
      var targetId := ObjectIdString(target.id);
      var once := users[i := target.(followers := Filter(target.followers, OtherId(followerId)))];
      var after := once[j := once[j].(following := Filter(once[j].following, OtherId(targetId)))];
      (Ok(200, Unfollowed("Successfully unfollowed " + target.username, targetUsername)), after)
  }

  /** An unfollow leaves in the target's `followers` exactly the entries
      without the follower's id, and in the follower's `following` exactly
      the entries without the target's id; nothing else changes. */
  lemma UnfollowRemoves(users: seq<User>, i: nat, j: nat, targetUsername: string, followerId: string)
    requires i < |users| && j < |users| && UnfollowAt(users, i, j, targetUsername, followerId).0.Ok?
    ensures var after := UnfollowAt(users, i, j, targetUsername, followerId).1;
            var targetId := ObjectIdString(users[i].id);
            && (forall e :: e in after[i].followers <==> e in users[i].followers && e.id != followerId)
            && (forall e :: e in after[j].following <==> e in users[j].following && e.id != targetId)
            && !FollowedBy(after[i], followerId)
            && (forall k :: 0 <= k < |users| ==>
                  after[k] == users[k].(followers := after[k].followers, following := after[k].following))
  {
    var targetId := ObjectIdString(users[i].id);
    var once := users[i := users[i].(followers := Filter(users[i].followers, OtherId(followerId)))];
    FilterMembers(users[i].followers, OtherId(followerId));
    FilterMembers(once[j].following, OtherId(targetId));
    var after := UnfollowAt(users, i, j, targetUsername, followerId).1;
    forall k | 0 <= k < |after[i].followers| ensures after[i].followers[k].id != followerId {
      assert after[i].followers[k] in after[i].followers;
    }
  }

  /** Pulling by id an entry just pushed onto a list that held no entry with
      that id gives the list back. */
  lemma PullAfterPush(s: seq<FollowRef>, x: FollowRef, id: string)
    requires x.id == id && forall k :: 0 <= k < |s| ==> s[k].id != id
    ensures Filter(s + [x], OtherId(id)) == s
  {
    FilterAppend(s, x, OtherId(id));
    FilterKeepsAll(s, OtherId(id));
  }

  /** At fixed indexes, an unfollow right after a follow restores every user. */
  lemma UnfollowAfterFollow(users: seq<User>, i: nat, j: nat, targetUsername: string, req: FollowRequest)
    requires i < |users| && j < |users| && FollowAt(users, i, j, req).0.Ok?
    requires forall k :: 0 <= k < |users[j].following| ==> users[j].following[k].id != ObjectIdString(users[i].id)
    ensures UnfollowAt(FollowAt(users, i, j, req).1, i, j, targetUsername, req.followerId)
            == (Ok(200, Unfollowed("Successfully unfollowed " + users[i].username, targetUsername)), users)
  {
    var after := FollowAt(users, i, j, req).1;
    FollowAppends(users, i, j, req);
    var last := |after[i].followers| - 1;
    assert after[i].followers[last].id == req.followerId;
    assert FollowedBy(after[i], req.followerId);
    PullAfterPush(users[i].followers, FollowerRef(req), req.followerId);
    PullAfterPush(users[j].following, TargetRef(users[i]), ObjectIdString(users[i].id));
    var back := UnfollowAt(after, i, j, targetUsername, req.followerId).1;
    forall k | 0 <= k < |users| ensures back[k] == users[k] {
    }
    EqualPointwise(back, users);
  }

  /** Unfollowing right after a follow restores every user, provided the
      follower's `following` held no entry for the target beforehand. */
  lemma FollowThenUnfollow(users: seq<User>, targetUsername: string, req: FollowRequest)
    requires FollowStep(users, targetUsername, req).0.Ok?
    requires var f := Locate(users, targetUsername, req.followerId);
             forall k :: 0 <= k < |users[f.follower].following| ==>
               users[f.follower].following[k].id != ObjectIdString(users[f.target].id)
    ensures var f := Locate(users, targetUsername, req.followerId);
            UnfollowStep(FollowStep(users, targetUsername, req).1, targetUsername, req.followerId)
            == (Ok(200, Unfollowed("Successfully unfollowed " + users[f.target].username, targetUsername)), users)
  {
    var f := Locate(users, targetUsername, req.followerId);
    var after := FollowAt(users, f.target, f.follower, req).1;
    FollowAppends(users, f.target, f.follower, req);
    LocateSame(users, after, targetUsername, req.followerId);
    UnfollowAfterFollow(users, f.target, f.follower, targetUsername, req);
  }

  /** The handler of POST `/:username/follow`, as a step on the database. */
  method Follow(db: Database, targetUsername: string, req: FollowRequest) returns (r: Reply<Followed>)
    requires db.Valid()
    modifies db`users
    ensures db.Valid()
    ensures (r, db.users) == FollowStep(old(db.users), targetUsername, req)
  {
    var found := Locate(db.users, targetUsername, req.followerId);
    if found.Refused? {
      return Err(found.status, found.message);
    }
    var follower := ParseObjectId(req.followerId).value;
    assert found.follower == FirstIndex(db.users, HasId(follower)).value;
    r := FollowFound(db, found.target, follower, req);
  }

  /** The follow after the guards, with the target at index `i`; the follower
      is looked up again by `_id`, as the second `updateOne` does. */
  method FollowFound(db: Database, i: nat, follower: ObjectId, req: FollowRequest) returns (r: Reply<Followed>)
    requires db.Valid() && i < |db.users| && FirstIndex(db.users, HasId(follower)).Some?
    modifies db`users
    ensures db.Valid()
    ensures (r, db.users) == FollowAt(old(db.users), i, FirstIndex(old(db.users), HasId(follower)).value, req)
  {
    var target := db.users[i];
    if FollowedBy(target, req.followerId) {
      return Err(400, "You are already following this user.");
    }
    // updateOne({username}, {$push: {followers}})
    var pushed := target.(followers := target.followers + [FollowerRef(req)]);
    FirstIndexSame(db.users, db.users[i := pushed], HasId(follower));
    db.SetUser(i, pushed);
    // updateOne({_id}, {$push: {following}})
    var j := FirstIndex(db.users, HasId(follower)).value;
    db.SetUser(j, db.users[j].(following := db.users[j].following + [TargetRef(target)]));
    r := Ok(200, Followed("Successfully followed " + target.username, FollowerRef(req), TargetRef(target)));
  }

  /** The handler of POST `/:username/unfollow`, as a step on the database. */
  method Unfollow(db: Database, targetUsername: string, followerId: string) returns (r: Reply<Unfollowed>)
    requires db.Valid()
    modifies db`users
    ensures db.Valid()
    ensures (r, db.users) == UnfollowStep(old(db.users), targetUsername, followerId)
  {
    var found := Locate(db.users, targetUsername, followerId);
    if found.Refused? {
      return Err(found.status, found.message);
    }
    var follower := ParseObjectId(followerId).value;
    assert found.follower == FirstIndex(db.users, HasId(follower)).value;
    r := UnfollowFound(db, found.target, follower, targetUsername, followerId);
  }

  /** The unfollow after the guards, with the target at index `i`. */
  method UnfollowFound(db: Database, i: nat, follower: ObjectId, targetUsername: string, followerId: string)
    returns (r: Reply<Unfollowed>)
    requires db.Valid() && i < |db.users| && FirstIndex(db.users, HasId(follower)).Some?
    modifies db`users
    ensures db.Valid()
    ensures (r, db.users) ==
            UnfollowAt(old(db.users), i, FirstIndex(old(db.users), HasId(follower)).value, targetUsername, followerId)
  {
    var target := db.users[i];
    if !FollowedBy(target, followerId) {
      return Err(400, "You are not following this user.");
    }
    // updateOne({username}, {$pull: {followers: {id: followerId}}})
    var pulled := target.(followers := Filter(target.followers, OtherId(followerId)));
    FirstIndexSame(db.users, db.users[i := pulled], HasId(follower));
    db.SetUser(i, pulled);
    // updateOne({_id}, {$pull: {following: {id: targetId}}})
    var targetId := ObjectIdString(target.id);
    var j := FirstIndex(db.users, HasId(follower)).value;
    db.SetUser(j, db.users[j].(following := Filter(db.users[j].following, OtherId(targetId))));
    r := Ok(200, Unfollowed("Successfully unfollowed " + target.username, targetUsername));
  }
}
