/** The posts router: the feed annotated with each author's `verified`
    flag, post creation with defaults, the set-like `likes` and `retruths`
    toggles (`$addToSet` and `$pull`), likes on a comment, and adding and
    removing comments. A post is addressed by its own `id` string; every
    update acts on the first post with that `id`. */
module Posts {
  import opened Sequences
  import opened Store

  function HasPostId(id: string): Post -> bool {
    (p: Post) => p.id == id
  }

  // ---------------------------------------------------------------------------
  // GET `/`: the feed

  /** A post as the feed lists it: the document and its author's flag. */
  datatype FeedPost = FeedPost(post: Post, verified: bool)

  function NegCreatedAt(p: Post): int { -p.createdAt }

  /** The index of the last user with the username, if any. */
  function LastNamedIndex(users: seq<User>, name: string): (r: Option<nat>)
    ensures r.Some? ==> && r.value < |users| && users[r.value].username == name
                        && forall j :: r.value < j < |users| ==> users[j].username != name
    ensures r.None? ==> forall k :: 0 <= k < |users| ==> users[k].username != name
  {
    if users == [] then None
    else if users[|users| - 1].username == name then Some(|users| - 1)
    else LastNamedIndex(users[..|users| - 1], name)
  }

  /** The last user with the username, if any: the entry `usersMap` keeps
      for it once the `forEach` has set an entry for every user in turn. */
  function LastNamed(users: seq<User>, name: string): (r: Option<User>)
    ensures r.Some? ==> r.value in users && r.value.username == name
    ensures r.None? <==> forall k :: 0 <= k < |users| ==> users[k].username != name
  {
    match LastNamedIndex(users, name)
    case None => None
    case Some(k) => Some(users[k])
  }

  /** A user with the name and no later user with it is the one found. */
  lemma LastNamedIs(users: seq<User>, name: string, k: nat)
    requires k < |users| && users[k].username == name
    requires forall j :: k < j < |users| ==> users[j].username != name
    ensures LastNamed(users, name) == Some(users[k])
  {
    var r := LastNamedIndex(users, name);
    assert r.Some? && r.value == k;
  }

  /** Appending a user makes it the one found for its name and changes nothing for other names. */
  lemma LastNamedSnoc(users: seq<User>, u: User, name: string)
    ensures LastNamed(users + [u], name) == if u.username == name then Some(u) else LastNamed(users, name)
  {
    assert (users + [u])[..|users|] == users;
  }

  /** `usersMap[username]?.verified || false`. */
  function AuthorVerified(users: seq<User>, name: string): bool {
    match LastNamed(users, name)
    case Some(u) => u.verified
    case None => false
  }

  /** The feed: every post, newest first, each with its author's flag. */
  function Feed(posts: seq<Post>, users: seq<User>): (r: seq<FeedPost>)
    ensures |r| == |posts|
  {
    var sorted := SortBy(posts, NegCreatedAt);
    seq(|sorted|, i requires 0 <= i < |sorted| => FeedPost(sorted[i], AuthorVerified(users, sorted[i].username)))
  }

  function PostsOf(feed: seq<FeedPost>): (r: seq<Post>)
    ensures |r| == |feed| && forall i :: 0 <= i < |feed| ==> r[i] == feed[i].post
  {
    seq(|feed|, i requires 0 <= i < |feed| => feed[i].post)
  }

  /** The feed holds the posts, each as often as it is stored, newest first. */
  lemma FeedNewestFirst(posts: seq<Post>, users: seq<User>)
    ensures multiset(PostsOf(Feed(posts, users))) == multiset(posts)
    ensures var r := Feed(posts, users);
            forall a, b :: 0 <= a < b < |r| ==> r[a].post.createdAt >= r[b].post.createdAt
  {
    var sorted := SortBy(posts, NegCreatedAt);
    SortByPermutes(posts, NegCreatedAt);
    SortByOrders(posts, NegCreatedAt);
    assert PostsOf(Feed(posts, users)) == sorted;
    var r := Feed(posts, users);
    forall a, b | 0 <= a < b < |r| ensures r[a].post.createdAt >= r[b].post.createdAt {
      assert NegCreatedAt(sorted[a]) <= NegCreatedAt(sorted[b]);
    }
  }

  /** A post is flagged exactly when the last user with its author's
      username is verified; a post whose author has no user is not flagged. */
  lemma FeedVerified(posts: seq<Post>, users: seq<User>, i: nat)
    requires i < |posts|
    ensures var e := Feed(posts, users)[i];
            && (e.verified <==> exists k :: 0 <= k < |users| && users[k].username == e.post.username
                                 && users[k].verified
                                 && forall j :: k < j < |users| ==> users[j].username != e.post.username)
  {
    var name := Feed(posts, users)[i].post.username;
    var found := LastNamedIndex(users, name);
    if found.Some? {
      var k := found.value;
      assert users[k].verified == Feed(posts, users)[i].verified;
    }
    forall k | 0 <= k < |users| && users[k].username == name
                && forall j :: k < j < |users| ==> users[j].username != name
      ensures Feed(posts, users)[i].verified == users[k].verified
    {
      LastNamedIs(users, name, k);
    }
  }

  /** Keeping only users that a filter lets through changes no `LastNamed`
      for a name the filter lets through. */
  lemma {:induction false} LastNamedFilter(users: seq<User>, keep: User -> bool, name: string)
    requires forall u: User :: u.username == name ==> keep(u)
    ensures LastNamed(Filter(users, keep), name) == LastNamed(users, name)
  {
    if users != [] {
      var init, last := users[..|users| - 1], users[|users| - 1];
      assert users == init + [last];
      FilterAppend(init, last, keep);
      LastNamedFilter(init, keep, name);
      LastNamedSnoc(init, last, name);
      if keep(last) {
        assert Filter(users, keep) == Filter(init, keep) + [last];
        LastNamedSnoc(Filter(init, keep), last, name);
      } else {
        assert Filter(users, keep) == Filter(init, keep);
        assert last.username != name;
      }
    }
  }

  /** `usersMap` after the `forEach` over the users: each user's entry
      replaces any earlier one with the same username. */
  function UsersMap(users: seq<User>): map<string, User> {
    if users == [] then map[]
    else UsersMap(users[..|users| - 1])[users[|users| - 1].username := users[|users| - 1]]
  }

  /** The map holds, for every username, the last user with it. */
  lemma {:induction false} UsersMapLast(users: seq<User>)
    ensures forall n :: n in UsersMap(users) <==> LastNamed(users, n).Some?
    ensures forall n :: n in UsersMap(users) ==> UsersMap(users)[n] == LastNamed(users, n).value
  {
    if users != [] {
      var init, last := users[..|users| - 1], users[|users| - 1];
      assert users == init + [last];
      UsersMapLast(init);
      forall n ensures LastNamed(users, n) == if last.username == n then Some(last) else LastNamed(init, n) {
        LastNamedSnoc(init, last, n);
      }
    }
  }

  /** The users `find({username: {$in: usernames}})` returns. */
  function NamedIn(names: seq<string>): User -> bool {
    (u: User) => u.username in names
  }

  /** The handler: sort the posts, query the users among their authors, fill
      `usersMap` one user at a time, then annotate every post. */
  method ListPosts(db: Database) returns (r: seq<FeedPost>)
    ensures r == Feed(db.posts, db.users)
  {
    var posts := SortBy(db.posts, NegCreatedAt);
    var authors := seq(|posts|, i requires 0 <= i < |posts| => posts[i].username);
    var usernames := Distinct(authors);
    var selected := Filter(db.users, NamedIn(usernames));
    var usersMap: map<string, User> := map[];
    for i := 0 to |selected|
      invariant usersMap == UsersMap(selected[..i])
    {
      assert selected[..i + 1][..i] == selected[..i];
      usersMap := usersMap[selected[i].username := selected[i]];
    }
    assert selected[..|selected|] == selected;
    UsersMapLast(selected);
    r := seq(|posts|, i requires 0 <= i < |posts| =>
               FeedPost(posts[i], posts[i].username in usersMap && usersMap[posts[i].username].verified));
    forall i | 0 <= i < |posts| ensures r[i] == Feed(db.posts, db.users)[i] {
      var name := posts[i].username;
      assert authors[i] == name;
      LastNamedFilter(db.users, NamedIn(usernames), name);
    }
  }

  // ---------------------------------------------------------------------------
  // POST `/`: create

  /** The JSON body of POST `/`. `None` and the empty `imageURL` stand for an
      absent (falsy) field; `createdAt` is the client's date, already parsed. */
  datatype PostRequest = PostRequest(
    id: string, name: string, username: string, text: string,
    images: Option<seq<string>>, imageURL: string, createdAt: Option<Time>,
    likes: Option<seq<Like>>, retruths: Option<seq<Like>>, comments: Option<seq<Comment>>)

  function Or<T>(given: Option<T>, default: T): T {
    if given.Some? then given.value else default
  }

  /** The inserted document: the client's fields, with `[]`, `null` and the
      current time for those it leaves out. */
  function NewPost(req: PostRequest, now: Time): (p: Post)
    ensures p.id == req.id && p.name == req.name && p.username == req.username && p.text == req.text
    ensures req.images.None? ==> p.images == []
    ensures req.images.Some? ==> p.images == req.images.value
    ensures p.imageURL.None? <==> req.imageURL == ""
    ensures p.imageURL.Some? ==> p.imageURL.value == req.imageURL
    ensures req.createdAt.None? ==> p.createdAt == now
    ensures req.createdAt.Some? ==> p.createdAt == req.createdAt.value
    ensures req.likes.None? ==> p.likes == []
    ensures req.likes.Some? ==> p.likes == req.likes.value
    ensures req.retruths.None? ==> p.retruths == []
    ensures req.retruths.Some? ==> p.retruths == req.retruths.value
    ensures req.comments.None? ==> p.comments == []
    ensures req.comments.Some? ==> p.comments == req.comments.value
  {
    Post(req.id, req.name, req.username, req.text, Or(req.images, []),
         if req.imageURL == "" then None else Some(req.imageURL),
         Or(req.createdAt, now), Or(req.likes, []), Or(req.retruths, []), Or(req.comments, []))
  }

  /** The handler: one insert, and the document as the reply. */
  method CreatePost(db: Database, req: PostRequest, now: Time) returns (r: Reply<Post>)
    modifies db`posts
    ensures r == Ok(201, NewPost(req, now)) && db.posts == old(db.posts) + [NewPost(req, now)]
  {
    var post := NewPost(req, now);
    db.posts := db.posts + [post];
    r := Ok(201, post);
  }

  // ---------------------------------------------------------------------------
  // Likes and retruths

  /** The two lists of `{id: userId}` entries a post keeps. */
  datatype Reaction = Likes | Retruths

  function Reactions(p: Post, kind: Reaction): seq<Like> {
    match kind
    case Likes => p.likes
    case Retruths => p.retruths
  }

  function WithReactions(p: Post, kind: Reaction, entries: seq<Like>): (q: Post)
    ensures Reactions(q, kind) == entries
    ensures kind == Likes ==> q == p.(likes := entries)
    ensures kind == Retruths ==> q == p.(retruths := entries)
  {
    match kind
    case Likes => p.(likes := entries)
    case Retruths => p.(retruths := entries)
  }

  /** `$addToSet`: appends the entry unless it is present. */
  function AddToSet(entries: seq<Like>, userId: string): seq<Like> {
    if Like(userId) in entries then entries else entries + [Like(userId)]
  }

  function OtherUser(userId: string): Like -> bool {
    (e: Like) => e.id != userId
  }

  /** `$pull` with `{id: userId}`: removes every entry with that id. */
  function Pull(entries: seq<Like>, userId: string): seq<Like> {
    Filter(entries, OtherUser(userId))
  }

  /** The update a like (or retruth) request makes: `$pull` when undoing, `$addToSet` otherwise. */
  function Toggled(entries: seq<Like>, userId: string, undo: bool): seq<Like> {
    if undo then Pull(entries, userId) else AddToSet(entries, userId)
  }

  /** The update changes the list exactly when undoing finds the entry, or
      adding does not. */
  lemma ToggledModifies(entries: seq<Like>, userId: string, undo: bool)
    ensures Toggled(entries, userId, undo) != entries <==>
              if undo then Like(userId) in entries else Like(userId) !in entries
  {
    if undo {
      FilterMembers(entries, OtherUser(userId));
      if Like(userId) !in entries {
        forall k | 0 <= k < |entries| ensures OtherUser(userId)(entries[k]) {
          assert entries[k] != Like(userId);
        }
        FilterKeepsAll(entries, OtherUser(userId));
      }
    } else {
      assert |AddToSet(entries, userId)| != |entries| <==> Like(userId) !in entries;
    }
  }

  /** After the update the entry is present when adding and absent when
      undoing; every other entry is kept. */
  lemma ToggledMembers(entries: seq<Like>, userId: string, undo: bool)
    ensures undo ==> Like(userId) !in Toggled(entries, userId, undo)
    ensures !undo ==> Like(userId) in Toggled(entries, userId, undo)
    ensures forall e :: e != Like(userId) ==> (e in Toggled(entries, userId, undo) <==> e in entries)
  {
    FilterMembers(entries, OtherUser(userId));
  }

  /** `$addToSet` never adds a second entry with the same id. */
  lemma AddToSetDistinct(entries: seq<Like>, userId: string)
    requires DistinctKeys(entries, LikeId)
    ensures DistinctKeys(AddToSet(entries, userId), LikeId)
  {
    if Like(userId) !in entries {
      forall k | 0 <= k < |entries| ensures LikeId(entries[k]) != LikeId(Like(userId)) {
        assert entries[k] != Like(userId);
      }
      SnocDistinct(entries, Like(userId), LikeId);
    }
  }

  function LikeId(e: Like): string { e.id }

  /** The like (or retruth) on the post at index `i`: the update, and 404
      when it modified nothing. */
  function ReactAt(posts: seq<Post>, i: nat, kind: Reaction, userId: string, undo: bool)
    : (r: (Reply<Post>, seq<Post>))
    requires i < |posts|
    ensures r.0.Err? ==> r == (Err(404, "Post not found"), posts)
    ensures r.0.Ok? ==> && r.0.status == 200 && |r.1| == |posts| && r.1[i] == r.0.body
                        && Reactions(r.0.body, kind) == Toggled(Reactions(posts[i], kind), userId, undo)
                        && r.1 == posts[i := r.0.body]
                        && r.0.body == WithReactions(posts[i], kind, Toggled(Reactions(posts[i], kind), userId, undo))
  {
    var entries := Toggled(Reactions(posts[i], kind), userId, undo);
    if entries == Reactions(posts[i], kind) then (Err(404, "Post not found"), posts)
    else
      var p := WithReactions(posts[i], kind, entries);
      (Ok(200, p), posts[i := p])
  }

  /** PATCH `/:id/like` (`kind` is `Likes`, `undo` is `unlike`) and PATCH
      `/:id/retruth` (`Retruths`, `unretruth`). */
  function ReactStep(posts: seq<Post>, postId: string, kind: Reaction, userId: string, undo: bool)
    : (r: (Reply<Post>, seq<Post>))
    ensures r.0.Err? ==> r == (Err(404, "Post not found"), posts)
  {
    match FirstIndex(posts, HasPostId(postId))
    case None => (Err(404, "Post not found"), posts)
    case Some(i) => ReactAt(posts, i, kind, userId, undo)
  }

  /** A reaction succeeds exactly when the post exists and the update
      modifies it: a repeated like, or an unlike of a post not liked, is a 404. */
  lemma ReactSucceeds(posts: seq<Post>, postId: string, kind: Reaction, userId: string, undo: bool)
    ensures ReactStep(posts, postId, kind, userId, undo).0.Ok? <==>
              match FirstIndex(posts, HasPostId(postId))
              case None => false
              case Some(i) => if undo then Like(userId) in Reactions(posts[i], kind)
                              else Like(userId) !in Reactions(posts[i], kind)
  {
    match FirstIndex(posts, HasPostId(postId))
    case None =>
    case Some(i) => ToggledModifies(Reactions(posts[i], kind), userId, undo);
  }

  /** A second identical request after a successful one is answered 404 and changes nothing. */
  lemma ReactTwice(posts: seq<Post>, postId: string, kind: Reaction, userId: string, undo: bool)
    requires ReactStep(posts, postId, kind, userId, undo).0.Ok?
    ensures var after := ReactStep(posts, postId, kind, userId, undo).1;
            ReactStep(after, postId, kind, userId, undo) == (Err(404, "Post not found"), after)
  {
    var i := FirstIndex(posts, HasPostId(postId)).value;
    var after := ReactStep(posts, postId, kind, userId, undo).1;
    FirstIndexSame(posts, after, HasPostId(postId));
    ToggledMembers(Reactions(posts[i], kind), userId, undo);
    ToggledModifies(Reactions(after[i], kind), userId, undo);
  }

  /** Undoing a successful like (or retruth) restores the posts. */
  lemma ReactThenUndo(posts: seq<Post>, postId: string, kind: Reaction, userId: string)
    requires ReactStep(posts, postId, kind, userId, false).0.Ok?
    ensures var after := ReactStep(posts, postId, kind, userId, false).1;
            ReactStep(after, postId, kind, userId, true).1 == posts
  {
    var i := FirstIndex(posts, HasPostId(postId)).value;
    var after := ReactStep(posts, postId, kind, userId, false).1;
    var entries := Reactions(posts[i], kind);
    FirstIndexSame(posts, after, HasPostId(postId));
    assert Like(userId) !in entries;
    FilterAppend(entries, Like(userId), OtherUser(userId));
    forall k | 0 <= k < |entries| ensures OtherUser(userId)(entries[k]) {
      assert entries[k] != Like(userId);
    }
    FilterKeepsAll(entries, OtherUser(userId));
    assert Pull(entries + [Like(userId)], userId) == entries;
    assert WithReactions(after[i], kind, entries) == posts[i];
  }

  /** The handler: the update on the first post with the id, then `findOne` for the reply. */
  method React(db: Database, postId: string, kind: Reaction, userId: string, undo: bool) returns (r: Reply<Post>)
    modifies db`posts
    ensures (r, db.posts) == ReactStep(old(db.posts), postId, kind, userId, undo)
  {
    var found := FirstIndex(db.posts, HasPostId(postId));
    if found.None? {
      return Err(404, "Post not found");
    }
    var i := found.value;
    var entries := Toggled(Reactions(db.posts[i], kind), userId, undo);
    if entries == Reactions(db.posts[i], kind) {
      return Err(404, "Post not found");
    }
    var before := db.posts;
    db.posts := db.posts[i := WithReactions(db.posts[i], kind, entries)];
    FirstIndexSame(before, db.posts, HasPostId(postId));
    var updated := Find(db.posts, HasPostId(postId));
    r := Ok(200, updated.value);
  }

  // ---------------------------------------------------------------------------
  // Likes on a comment

  function CommentWithId(id: string): Comment -> bool {
    (c: Comment) => c.id == id
  }

  /** The filter `{id: postId, "comments.id": commentId}`. */
  function HasComment(postId: string, commentId: string): Post -> bool {
    (p: Post) => p.id == postId && exists k :: 0 <= k < |p.comments| && p.comments[k].id == commentId
  }

  /** The matched post (index `i`) with the update applied to its first
      comment with the id (the positional `comments.$`). */
  function CommentToggled(posts: seq<Post>, i: nat, commentId: string, userId: string, undo: bool): (r: seq<Post>)
    requires i < |posts| && HasComment(posts[i].id, commentId)(posts[i])
    ensures |r| == |posts| && r == posts[i := r[i]]
    ensures var k := FirstIndex(posts[i].comments, CommentWithId(commentId)).value;
            var c := posts[i].comments[k];
            && r[i] == posts[i].(comments := r[i].comments)
            && |r[i].comments| == |posts[i].comments|
            && r[i].comments[k] == c.(likes := Toggled(c.likes, userId, undo))
            && forall j :: 0 <= j < |posts[i].comments| && j != k ==> r[i].comments[j] == posts[i].comments[j]
  {
    var k := FirstIndex(posts[i].comments, CommentWithId(commentId)).value;
    var c := posts[i].comments[k];
    posts[i := posts[i].(comments := posts[i].comments[k := c.(likes := Toggled(c.likes, userId, undo))])]
  }

  /** The reply: the first comment with the id in the first post with the id. */
  function CommentReply(posts: seq<Post>, postId: string, commentId: string): Reply<Comment> {
    match FirstIndex(posts, HasPostId(postId))
    case None => Err(404, "Post not found")
    case Some(j) =>
      match Find(posts[j].comments, CommentWithId(commentId))
      case None => Err(404, "Comment not found")
      case Some(c) => Ok(200, c)
  }

  /** PATCH `/:postId/comments/:commentId/like`. Success depends on a post
      matching, not on the update modifying it. */
  function CommentLikeStep(posts: seq<Post>, postId: string, commentId: string, userId: string, undo: bool)
    : (r: (Reply<Comment>, seq<Post>))
    ensures r.0 == Err(404, "Post or comment not found") <==>
              forall j :: 0 <= j < |posts| ==> !HasComment(postId, commentId)(posts[j])
    ensures r.0 == Err(404, "Post or comment not found") ==> r.1 == posts
  {
    match FirstIndex(posts, HasComment(postId, commentId))
    case None => (Err(404, "Post or comment not found"), posts)
    case Some(i) =>
      var after := CommentToggled(posts, i, commentId, userId, undo);
      (CommentReply(after, postId, commentId), after)
  }

  /** The update keeps every post id and comment id, so it matches the same
      post and comment again. */
  lemma CommentToggledKeepsIds(posts: seq<Post>, i: nat, commentId: string, userId: string, undo: bool)
    requires i < |posts| && HasComment(posts[i].id, commentId)(posts[i])
    ensures var after := CommentToggled(posts, i, commentId, userId, undo);
            && (forall j :: 0 <= j < |posts| && j != i ==> after[j] == posts[j])
            && after[i].id == posts[i].id && |after[i].comments| == |posts[i].comments|
            && (forall k :: 0 <= k < |posts[i].comments| ==> after[i].comments[k].id == posts[i].comments[k].id)
  {
  }

  /** When the matched post is also the first with its id (as when post
      ids are unique), the reply is the updated comment. */
  lemma CommentLikeReply(posts: seq<Post>, postId: string, commentId: string, userId: string, undo: bool)
    requires FirstIndex(posts, HasComment(postId, commentId)).Some?
    requires FirstIndex(posts, HasPostId(postId)) == FirstIndex(posts, HasComment(postId, commentId))
    ensures var i := FirstIndex(posts, HasComment(postId, commentId)).value;
            var k := FirstIndex(posts[i].comments, CommentWithId(commentId)).value;
            var c := posts[i].comments[k];
            CommentLikeStep(posts, postId, commentId, userId, undo).0
            == Ok(200, c.(likes := Toggled(c.likes, userId, undo)))
  {
    var i := FirstIndex(posts, HasComment(postId, commentId)).value;
    var after := CommentToggled(posts, i, commentId, userId, undo);
    CommentToggledKeepsIds(posts, i, commentId, userId, undo);
    FirstIndexSame(posts, after, HasPostId(postId));
    FirstIndexSame(posts[i].comments, after[i].comments, CommentWithId(commentId));
  }

  /** Unlike `/:id/like`, a repeated like of a comment is answered 200 again
      and changes nothing more. */
  lemma CommentLikeTwice(posts: seq<Post>, postId: string, commentId: string, userId: string)
    requires FirstIndex(posts, HasComment(postId, commentId)).Some?
    requires FirstIndex(posts, HasPostId(postId)) == FirstIndex(posts, HasComment(postId, commentId))
    ensures var first := CommentLikeStep(posts, postId, commentId, userId, false);
            CommentLikeStep(first.1, postId, commentId, userId, false) == first
  {
    var i := FirstIndex(posts, HasComment(postId, commentId)).value;
    var after := CommentToggled(posts, i, commentId, userId, false);
    CommentToggledKeepsIds(posts, i, commentId, userId, false);
    FirstIndexSame(posts, after, HasComment(postId, commentId)) by {
      forall j | 0 <= j < |posts| ensures HasComment(postId, commentId)(posts[j]) == HasComment(postId, commentId)(after[j]) {
        if j == i {
          assert HasComment(postId, commentId)(after[i]) by {
            var k := FirstIndex(posts[i].comments, CommentWithId(commentId)).value;
            assert after[i].comments[k].id == commentId;
          }
        }
      }
    }
    var k := FirstIndex(posts[i].comments, CommentWithId(commentId)).value;
    FirstIndexSame(posts[i].comments, after[i].comments, CommentWithId(commentId));
    var c := posts[i].comments[k];
    assert Like(userId) in AddToSet(c.likes, userId);
    assert CommentToggled(after, i, commentId, userId, false) == after by {
      assert after[i].comments[k].likes == AddToSet(c.likes, userId);
      assert AddToSet(AddToSet(c.likes, userId), userId) == AddToSet(c.likes, userId);
      assert after[i].comments[k := after[i].comments[k]] == after[i].comments;
      assert after[i := after[i]] == after;
    }
  }

  /** The handler: one update of the matched post, then `findOne` and `find` for the reply. */
  method LikeComment(db: Database, postId: string, commentId: string, userId: string, undo: bool)
    returns (r: Reply<Comment>)
    modifies db`posts
    ensures (r, db.posts) == CommentLikeStep(old(db.posts), postId, commentId, userId, undo)
  {
    var matched := FirstIndex(db.posts, HasComment(postId, commentId));
    if matched.None? {
      return Err(404, "Post or comment not found");
    }
    db.posts := CommentToggled(db.posts, matched.value, commentId, userId, undo);
    var updated := Find(db.posts, HasPostId(postId));
    if updated.None? {
      // The matched post keeps its id, so the `findOne` that follows the update finds a post.
      assert false;
    }
    var comment := Find(updated.value.comments, CommentWithId(commentId));
    if comment.None? {
      return Err(404, "Comment not found");
    }
    r := Ok(200, comment.value);
  }

  // ---------------------------------------------------------------------------
  // Adding and deleting comments

  function OtherComment(commentId: string): Comment -> bool {
    (c: Comment) => c.id != commentId
  }

  /** POST `/:id/comments`: `$push` onto the first post with the id. */
  function CommentAddStep(posts: seq<Post>, postId: string, c: Comment): (r: (Reply<Comment>, seq<Post>))
    ensures r.0.Err? ==> r == (Err(404, "Post not found"), posts)
    ensures r.0.Ok? <==> exists j :: 0 <= j < |posts| && posts[j].id == postId
    ensures r.0.Ok? ==> var i := FirstIndex(posts, HasPostId(postId)).value;
                        && r.0 == Ok(201, c) && r.1 == posts[i := posts[i].(comments := posts[i].comments + [c])]
  {
    match FirstIndex(posts, HasPostId(postId))
    case None => (Err(404, "Post not found"), posts)
    case Some(i) => (Ok(201, c), posts[i := posts[i].(comments := posts[i].comments + [c])])
  }

  /** DELETE `/:postId/comments/:commentId`: `$pull` from the first post with
      the id; 404 when nothing was removed. */
  function CommentDeleteStep(posts: seq<Post>, postId: string, commentId: string): (r: (Reply<string>, seq<Post>))
    ensures r.0.Err? ==> r == (Err(404, "There was an error deleting comment"), posts)
    ensures r.0.Ok? ==> r.0 == Ok(200, "Comment deleted successfully")
  {
    match FirstIndex(posts, HasPostId(postId))
    case None => (Err(404, "There was an error deleting comment"), posts)
    case Some(i) =>
      var kept := Filter(posts[i].comments, OtherComment(commentId));
      if kept == posts[i].comments then (Err(404, "There was an error deleting comment"), posts)
      else (Ok(200, "Comment deleted successfully"), posts[i := posts[i].(comments := kept)])
  }

  /** A delete succeeds exactly when the first post with the id has a comment
      with the comment id; it then removes every such comment and keeps the others. */
  lemma CommentDeleteRemoves(posts: seq<Post>, postId: string, commentId: string)
    ensures var r := CommentDeleteStep(posts, postId, commentId);
            r.0.Ok? <==> match FirstIndex(posts, HasPostId(postId))
                         case None => false
                         case Some(i) => exists k :: 0 <= k < |posts[i].comments| && posts[i].comments[k].id == commentId
    ensures var r := CommentDeleteStep(posts, postId, commentId);
            r.0.Ok? ==> var i := FirstIndex(posts, HasPostId(postId)).value;
                        && |r.1| == |posts| && (forall j :: 0 <= j < |posts| && j != i ==> r.1[j] == posts[j])
                        && r.1[i] == posts[i].(comments := r.1[i].comments)
                        && (forall c :: c in r.1[i].comments <==> c in posts[i].comments && c.id != commentId)
  {
    match FirstIndex(posts, HasPostId(postId))
    case None =>
    case Some(i) =>
      var comments := posts[i].comments;
      FilterMembers(comments, OtherComment(commentId));
      if forall k :: 0 <= k < |comments| ==> comments[k].id != commentId {
        FilterKeepsAll(comments, OtherComment(commentId));
      } else {
        var k :| 0 <= k < |comments| && comments[k].id == commentId;
        assert comments[k] !in Filter(comments, OtherComment(commentId));
      }
  }

  /** Deleting a comment just added, whose id no comment of the post had,
      restores the posts. */
  lemma CommentAddThenDelete(posts: seq<Post>, postId: string, c: Comment)
    requires CommentAddStep(posts, postId, c).0.Ok?
    requires var i := FirstIndex(posts, HasPostId(postId)).value;
             forall k :: 0 <= k < |posts[i].comments| ==> posts[i].comments[k].id != c.id
    ensures CommentDeleteStep(CommentAddStep(posts, postId, c).1, postId, c.id)
            == (Ok(200, "Comment deleted successfully"), posts)
  {
    var i := FirstIndex(posts, HasPostId(postId)).value;
    var after := CommentAddStep(posts, postId, c).1;
    FirstIndexSame(posts, after, HasPostId(postId));
    var comments := posts[i].comments;
    FilterAppend(comments, c, OtherComment(c.id));
    FilterKeepsAll(comments, OtherComment(c.id));
    assert Filter(comments + [c], OtherComment(c.id)) == comments;
    assert after[i := posts[i]] == posts;
  }

  /** The handler of POST `/:id/comments`. */
  method AddComment(db: Database, postId: string, c: Comment) returns (r: Reply<Comment>)
    modifies db`posts
    ensures (r, db.posts) == CommentAddStep(old(db.posts), postId, c)
  {
    var found := FirstIndex(db.posts, HasPostId(postId));
    if found.None? {
      return Err(404, "Post not found");
    }
    var i := found.value;
    db.posts := db.posts[i := db.posts[i].(comments := db.posts[i].comments + [c])];
    r := Ok(201, c);
  }

  /** The handler of DELETE `/:postId/comments/:commentId`. */
  method DeleteComment(db: Database, postId: string, commentId: string) returns (r: Reply<string>)
    modifies db`posts
    ensures (r, db.posts) == CommentDeleteStep(old(db.posts), postId, commentId)
  {
    var found := FirstIndex(db.posts, HasPostId(postId));
    if found.None? {
      return Err(404, "There was an error deleting comment");
    }
    var i := found.value;
    var kept := Filter(db.posts[i].comments, OtherComment(commentId));
    if kept == db.posts[i].comments {
      return Err(404, "There was an error deleting comment");
    }
    db.posts := db.posts[i := db.posts[i].(comments := kept)];
    r := Ok(200, "Comment deleted successfully");
  }
}
