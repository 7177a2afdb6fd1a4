# trenchsocial-backend, modelled in Dafny

This project models the request logic of the trenchsocial backend, an
Express and MongoDB social network. It covers:

- the real-time chat room of `server.js`:
  - the capped chat log and its eviction of the oldest messages;
  - the backlog a joining client receives;
  - the `connectedUsers` counter;
- the private-message router:
  - sending a message;
  - the per-counterpart conversation summary;
  - the thread between two users;
- the users router:
  - registration with trimmed, lower-cased email and username;
  - login with a uniform failure reply;
  - the user listing;
  - the "most contributions" ranking;
  - follow and unfollow;
- the posts router:
  - the feed annotated with each author's `verified` flag;
  - post creation with defaults;
  - the set-like like and retruth toggles;
  - likes on a comment;
  - adding and deleting comments;
- the auth router:
  - one-per-email, single-use verification codes;
  - password-reset tokens that are cleared on use;
- the reports router: validation and the stored record.

How the database is modelled:

- Each MongoDB collection is a sequence of documents in natural (insertion) order.
- A `findOne` or `updateOne` acts on the first matching document.
- A `deleteMany` or a `$pull` keeps the documents (or array entries) that do not match.
- `$push` appends.
- `$addToSet` appends unless an equal entry is present.
- ObjectIds are numbers handed out by a generator held in the database. Their string form is 24 lower-case hexadecimal digits.
- Each handler is one step. It returns the HTTP status with either the JSON body or the error message (`Store.Reply`), together with the new collection.

The clock, the random verification code, the random reset token and the
bcrypt hash and comparison are parameters. Where the source changes state
step by step, the model is imperative:

- the chat server is a class (`Chat.ChatServer`);
- the database is a class (`Store.Database`) whose handlers are methods;
- the eviction loop, the `contributionsMap` loops and the `usersMap` loop are methods with loop invariants.

Each method is proved equal to a specification function, and the properties
are lemmas about those functions.

Modules:

- `Sequences`: stable sort by an integer key, filter, first match, first per key, and their lemmas.
- `Store`: documents, ObjectId strings, `Reply`, `Database`.
- `Chat`: `server.js`.
- `PrivateMessages`: `routes/messages.js`.
- `Users`, `Follows` and `Contributions`: `routes/users.js`.
- `Posts`: `routes/posts.js`.
- `Auth`: `routes/auth.js`.
- `Reports`: `routes/reports.js`.

## Model

| member | source | states |
|---|---|---|
| Sequences.SortByPermutes | src/pages/api/routes/messages.js:64 | a `$sort` stage returns the same documents, each as often |
| Sequences.SortByOrders | src/pages/api/routes/messages.js:64 | a `$sort` stage returns the documents ordered by the key |
| Sequences.FirstIndex | src/pages/api/routes/users.js:113 | `findOne` yields the first matching document; none is found only when no document matches |
| Sequences.FilterMembers | src/pages/api/routes/posts.js:101 | a `$pull` or `deleteMany` keeps exactly the entries that do not match |
| Store.ParseObjectId | src/pages/api/routes/users.js:423-425 | `ObjectId.isValid` accepts only 24-digit strings, and their values are 12-byte ObjectIds |
| Store.ObjectIdStringRoundTrip | src/pages/api/routes/users.js:463 | `_id.toString()` of any ObjectId parses back to the same ObjectId |
| Store.Database.SetUser | src/pages/api/routes/users.js:443-455 | an `updateOne` that keeps the `_id` replaces that one user and keeps the ids unique and increasing |
| Chat.VerifiedFlag | src/pages/api/server.js:59-60 | the flag is true exactly when the first user with the username is verified; it is false for an unknown username |
| Chat.Backlog | src/pages/api/server.js:48-54 | the backlog holds min(stored, 100) messages |
| Chat.BacklogIsNewestOldestFirst | src/pages/api/server.js:48-54 | the backlog is drawn from the log and ordered oldest first; no message left out is newer than one sent |
| Chat.BacklogOfOrderedLog | src/pages/api/server.js:48-54 | with a clock that only advances, the backlog is exactly the last 100 stored messages in storage order |
| Chat.DeleteOneRemoves | src/pages/api/server.js:74 | `deleteOne({_id})` of a stored message removes exactly that message and keeps the others in order |
| Chat.DeleteAllRemoves | src/pages/api/server.js:73-75 | deleting the victims one by one removes exactly the victims and keeps the ids increasing |
| Chat.Oldest | src/pages/api/server.js:67-71 | the ascending-timestamp query with `limit(excess)` returns `excess` messages |
| Chat.Trim | src/pages/api/server.js:64-65 | when at most 100 messages are stored, nothing is deleted |
| Chat.Evictions | src/pages/api/server.js:64-75 | no deletion at or below 100 messages, and exactly `total - 100` deletions above |
| Chat.DeletedEvents | src/pages/api/server.js:73-75 | one `deleteOne` per victim, by its `_id`, in query order |
| Chat.TrimSize | src/pages/api/server.js:62-76 | after a send the log holds min(total, 100) messages |
| Chat.TrimEvictsOldest | src/pages/api/server.js:66-75 | above 100, exactly `total - 100` messages are deleted, and none is newer than a kept message |
| Chat.TrimIsSortedSuffix | src/pages/api/server.js:66-75 | the kept messages are, as a multiset, those after the `total - 100` oldest in timestamp order |
| Chat.TrimRemovesOldest | src/pages/api/server.js:66-75 | the kept log is the stored log minus the oldest `total - 100`; it holds 100 messages with increasing ids |
| Chat.TrimKeepsOrder | src/pages/api/server.js:73-75 | eviction adds nothing and keeps the survivors in insertion order |
| Chat.TrimKeepsNewest | src/pages/api/server.js:57-76 | a message stamped later than every stored one survives and is last in the log |
| Chat.NewestNotEvicted | src/pages/api/server.js:57-76 | a message stamped later than every stored one is never among the evicted |
| Chat.TrimOrderedLog | src/pages/api/server.js:64-75 | when every message is stamped later than the one before, eviction keeps exactly the last 100 stored messages, in storage order |
| Chat.TrimPreservesValid | src/pages/api/server.js:62-76 | after eviction the log holds at most 100 messages, with increasing ids below the generator |
| Chat.EvictOldest | src/pages/api/server.js:64-75 | the delete loop leaves the log `Trim` specifies and performs the deletions `Evictions` lists |
| Chat.ChatServer.constructor | src/pages/api/server.js:41 | the counter starts at 0 and nothing has been broadcast; the chat collection is taken as stored, of any size |
| Chat.ChatServer.Connect | src/pages/api/server.js:43-54 | the counter goes up by one, its new value is broadcast, and the client receives `Backlog(log)` |
| Chat.ChatServer.SendMessage | src/pages/api/server.js:56-79 | from a stored collection of any size, the message is stamped, inserted and the log trimmed before it is broadcast; afterwards at most 100 messages stay stored |
| Chat.ChatServer.Disconnect | src/pages/api/server.js:82-86 | the counter goes down by one, without clamping, and its new value is broadcast |
| PrivateMessages.Send | src/pages/api/routes/messages.js:9-37 | 400 and no insert for an unknown receiver, a missing sender or content, or a malformed sender id; otherwise exactly one message with sender, receiver, content and time is appended |
| PrivateMessages.Participants | src/pages/api/routes/messages.js:67-76 | the group key is the pair of participants, smaller id first, so A to B and B to A share it |
| PrivateMessages.Conversations | src/pages/api/routes/messages.js:46-118 | 400 exactly for a malformed viewer id; otherwise 200 with the pipeline's result, each element still carrying its `$group` key |
| PrivateMessages.ParticipantsOfCounterpart | src/pages/api/routes/messages.js:83-89 | for a message of the viewer, the group key is the viewer paired with the counterpart |
| PrivateMessages.OrderedInjective | src/pages/api/routes/messages.js:67-76 | two counterparts with the same key with the viewer are equal |
| PrivateMessages.LatestFirstSource | src/pages/api/routes/messages.js:55-65 | every message in the newest-first list is a stored message of the viewer |
| PrivateMessages.GroupSource | src/pages/api/routes/messages.js:55-78 | each group's message is a message of the viewer, and the first of its key in newest-first order |
| PrivateMessages.LatestFirstHolds | src/pages/api/routes/messages.js:55-65 | every message of the viewer reaches the grouping stage |
| PrivateMessages.ResolvedNewestFirst | src/pages/api/routes/messages.js:117 | the groups come out newest first, so the final sort keeps them as they are |
| PrivateMessages.ConversationsSound | src/pages/api/routes/messages.js:54-117 | every conversation comes from a stored message of the viewer, names its counterpart, carries that user's fields and keeps the group key: the viewer and the counterpart, smaller id first |
| PrivateMessages.SummarizeFields | src/pages/api/routes/messages.js:67-115 | the projected conversation carries the `$group` key, the counterpart's id, name, username and image and the message's fields |
| PrivateMessages.GroupIsNewest | src/pages/api/routes/messages.js:63-77 | a group's `$first` message is the newest between the viewer and its counterpart |
| PrivateMessages.ConversationsLatest | src/pages/api/routes/messages.js:63-77 | each conversation's `lastMessage` is no older than any message between the viewer and that counterpart |
| PrivateMessages.GroupsDistinctCounterparts | src/pages/api/routes/messages.js:67-89 | two groups never share a counterpart |
| PrivateMessages.ResolvedDistinct | src/pages/api/routes/messages.js:93-100 | after the lookup no counterpart is listed twice |
| PrivateMessages.ConversationsDistinct | src/pages/api/routes/messages.js:67-117 | no counterpart appears in two conversations |
| PrivateMessages.ConversationsComplete | src/pages/api/routes/messages.js:93-100 | every counterpart that has a user record gets a conversation |
| PrivateMessages.ConversationsNewestFirst | src/pages/api/routes/messages.js:117 | conversations are sorted by `lastMessage.timestamp`, newest first |
| PrivateMessages.Between | src/pages/api/routes/messages.js:129-188 | a malformed id makes `new ObjectId` throw, answered 500; otherwise 200 with the thread |
| PrivateMessages.ThreadSymmetric | src/pages/api/routes/messages.js:134-141 | the thread does not depend on which user is named first |
| PrivateMessages.ThreadSound | src/pages/api/routes/messages.js:134-179 | every entry is a stored message between the two users, joined with both user records |
| PrivateMessages.ThreadComplete | src/pages/api/routes/messages.js:134-161 | every message between the two users whose users both exist is in the thread |
| PrivateMessages.ThreadOldestFirst | src/pages/api/routes/messages.js:180 | the thread is sorted by `createdAt` ascending |
| Users.TrimStart | src/pages/api/routes/users.js:70-71 | `trim` drops exactly the leading white space |
| Users.TrimEnd | src/pages/api/routes/users.js:70-71 | `trim` drops exactly the trailing white space |
| Users.LowerChar | src/pages/api/routes/users.js:70-71 | lower-casing never turns white space into something else or back |
| Users.Normalize | src/pages/api/routes/users.js:70-71 | the stored form has no surrounding white space and no upper-case ASCII letter |
| Users.NormalizeVariant | src/pages/api/routes/users.js:70-71 | a string with no white space at its ends, typed with white space around it and any letters in another case, is stored as that string lower-cased |
| Users.TrimmedFixed | src/pages/api/routes/users.js:70-71 | a string without surrounding white space is its own trim |
| Users.NormalizeIdempotent | src/pages/api/routes/users.js:70-71 | normalizing a stored email or username again changes nothing |
| Users.NewUser | src/pages/api/routes/users.js:84-94 | a new user has the normalized email and username, the hash, the default image, empty followers and following, and `verified` false |
| Users.Register | src/pages/api/routes/users.js:63-97 | 400 when a field is missing; 409 for a taken email before 409 for a taken username; no insert on error; otherwise 201 and exactly `NewUser` appended |
| Users.RegisterKeepsUnique | src/pages/api/routes/users.js:74-78 | registration keeps emails unique and usernames unique |
| Users.RegisterKeepsNormalized | src/pages/api/routes/users.js:70-88 | every stored email and username stays in normalized form |
| Users.RegisterRejectsSameForm | src/pages/api/routes/users.js:70-78 | once a registration succeeds, one whose email is stored in the same form gets the email 409, and one whose username is gets a 409 |
| Users.RegisterRejectsVariant | src/pages/api/routes/users.js:70-78 | once a registration succeeds, one whose email or username is the stored one with white space around it and letters in any case gets a 409 |
| Users.Login | src/pages/api/routes/users.js:107-143 | 400 when a field is missing; every other failure is the same 401; success exactly when the first user with that email exists and the password matches its hash, answered 200 with that user's profile |
| Users.LoginUniformFailure | src/pages/api/routes/users.js:113-118 | a wrong password gets the same reply as an unknown email |
| Users.RegisterThenLogin | src/pages/api/routes/users.js:63-143 | a registered user logs in with the normalized email and the password; a white-space-only email gets a 400 instead |
| Users.LoginNeedsStoredForm | src/pages/api/routes/users.js:110-115 | login does not normalize, so an email typed in another form fails |
| Users.ListUsers | src/pages/api/routes/users.js:47-55 | as written, every user is listed without password, followers, following, createdAt and verified, and with every other field |
| Users.ListingExposesResetToken | src/pages/api/routes/users.js:51-53 | as written, the token `/forgot-password` just granted appears in the listing |
| Users.SafeListUsers | src/pages/api/routes/users.js:50-53 | corrected: every user is listed with id, email, name, username and image only |
| Users.SafeListingHidesResetToken | src/pages/api/routes/users.js:50-53 | corrected: granting a reset token leaves the listing unchanged |
| Follows.Locate | src/pages/api/routes/users.js:419-434 | the shared guards find indexes within the collection |
| Follows.LocateGuards | src/pages/api/routes/users.js:419-434 | the guards in order: 400 for a missing field, 400 for a malformed follower id, 404 when either user is missing; otherwise the first target by username and the first follower by `_id` |
| Follows.LocateSame | src/pages/api/routes/users.js:429-430 | the lookups depend only on ids and usernames |
| Follows.FollowStep | src/pages/api/routes/users.js:410-486 | a refused follow changes nothing; no user is added or removed |
| Follows.FollowAt | src/pages/api/routes/users.js:437-486 | 400 and no change exactly when the target already lists the follower id; otherwise success |
| Follows.FollowAppends | src/pages/api/routes/users.js:443-470 | a follow appends exactly one entry to the target's followers and one to the follower's following, and changes nothing else |
| Follows.UnfollowStep | src/pages/api/routes/users.js:494-543 | a refused unfollow changes nothing; no user is added or removed |
| Follows.UnfollowAt | src/pages/api/routes/users.js:515-543 | 400 and no change exactly when the target does not list the follower id; otherwise success |
| Follows.UnfollowRemoves | src/pages/api/routes/users.js:521-538 | the two pulls remove exactly the entries with the follower id and with the target id, and nothing else changes |
| Follows.PullAfterPush | src/pages/api/routes/users.js:521-528 | pulling an id just pushed onto a list without it gives the list back |
| Follows.UnfollowAfterFollow | src/pages/api/routes/users.js:443-538 | at fixed users, unfollow after follow restores every user |
| Follows.FollowThenUnfollow | src/pages/api/routes/users.js:410-543 | a successful follow followed by the unfollow restores the collection and answers 200 |
| Follows.Follow | src/pages/api/routes/users.js:410-491 | the handler's reply and new users are `FollowStep`'s, and the database invariant holds |
| Follows.FollowFound | src/pages/api/routes/users.js:437-486 | the check and the two pushes produce `FollowAt`'s result |
| Follows.Unfollow | src/pages/api/routes/users.js:494-548 | the handler's reply and new users are `UnfollowStep`'s, and the database invariant holds |
| Follows.UnfollowFound | src/pages/api/routes/users.js:515-543 | the check and the two pulls produce `UnfollowAt`'s result |
| Contributions.GroupByName | src/pages/api/routes/users.js:175-181 | `$group` by username has one document per distinct username |
| Contributions.GroupByNameCounts | src/pages/api/routes/users.js:175-181 | a username has a group exactly when it occurs, and the group counts its occurrences |
| Contributions.GroupSnoc | src/pages/api/routes/users.js:185-193 | each `set` adds its key and makes its count the latest for that key |
| Contributions.CountOfAbsent | src/pages/api/routes/users.js:184-194 | a username without a group counts 0 |
| Contributions.CountOfUnique | src/pages/api/routes/users.js:184-194 | a username with one group counts that group's count |
| Contributions.Merge | src/pages/api/routes/users.js:184-194 | the two loops leave one entry per username with posts or comments, holding both counts, 0 where missing |
| Contributions.Contributions | src/pages/api/routes/users.js:184-194 | the intended map has an entry exactly for each username with a post or a comment |
| Contributions.MergedContributions | src/pages/api/routes/users.js:184-194 | the map the loops build equals the intended per-username counts |
| Contributions.Top | src/pages/api/routes/users.js:201-216 | returns min(n, 5) contributors, n being the number of selected users |
| Contributions.TopListsAllWhenFew | src/pages/api/routes/users.js:201-216 | when at most 5 users are selected, every one of them is listed |
| Contributions.TopSound | src/pages/api/routes/users.js:196-213 | each contributor is a selected user, with its map counts and `total = postCount + commentCount` |
| Contributions.TopRanked | src/pages/api/routes/users.js:215 | the result is sorted by total, largest first |
| Contributions.TopDrawnFromSelected | src/pages/api/routes/users.js:196-216 | the listed contributors are selected users' entries, each listed at most as often as it is selected |
| Contributions.TopIsBest | src/pages/api/routes/users.js:215-216 | a selected user left out has a total no larger than any listed one |
| Contributions.MostContributions | src/pages/api/routes/users.js:172-218 | the handler returns the ranking of the intended counts |
| Contributions.ContributorCounts | src/pages/api/routes/users.js:175-212 | a listed contributor's counts are its numbers of posts and comments, and its total is positive |
| Posts.LastNamedIndex | src/pages/api/routes/posts.js:18-21 | finds the last user with the username, or reports that there is none |
| Posts.LastNamed | src/pages/api/routes/posts.js:18-21 | the user `usersMap` keeps for a username has that username, and exists exactly when some user has it |
| Posts.LastNamedIs | src/pages/api/routes/posts.js:18-21 | a user with the name and no later one is the user kept |
| Posts.LastNamedSnoc | src/pages/api/routes/posts.js:19-21 | each `forEach` step makes its user the one kept for its name |
| Posts.UsersMapLast | src/pages/api/routes/posts.js:18-21 | the map filled by the loop holds, for every username, the last user with it |
| Posts.LastNamedFilter | src/pages/api/routes/posts.js:14-15 | querying only the authors' usernames changes no author's flag |
| Posts.Feed | src/pages/api/routes/posts.js:8-29 | the feed lists as many posts as are stored |
| Posts.FeedNewestFirst | src/pages/api/routes/posts.js:11-27 | the feed holds the stored posts, each as often, newest first |
| Posts.FeedVerified | src/pages/api/routes/posts.js:18-27 | a post is flagged exactly when the last user with its author's username is verified; it is false when there is no such user |
| Posts.ListPosts | src/pages/api/routes/posts.js:8-29 | the handler, with its `usersMap` loop, returns `Feed` |
| Posts.NewPost | src/pages/api/routes/posts.js:58-69 | `images`, `likes`, `retruths` and `comments` default to empty, `imageURL` to null and `createdAt` to now; given values are kept |
| Posts.CreatePost | src/pages/api/routes/posts.js:55-72 | one insert, answered 201 with the document |
| Posts.ToggledModifies | src/pages/api/routes/posts.js:100-106 | the update modifies the list exactly when removing finds the entry or adding does not |
| Posts.ToggledMembers | src/pages/api/routes/posts.js:100-102 | after adding the entry is present, after removing it is absent, and other entries are kept |
| Posts.AddToSetDistinct | src/pages/api/routes/posts.js:102 | `$addToSet` never creates a second entry for a user |
| Posts.ReactAt | src/pages/api/routes/posts.js:104-111 | an unmodified post gives 404 and no change; a modified one gives 200 with the post whose toggled list alone has changed, stored at the same index |
| Posts.ReactStep | src/pages/api/routes/posts.js:96-111 | every failure is 404 "Post not found" with no change |
| Posts.ReactSucceeds | src/pages/api/routes/posts.js:100-111 | a like succeeds exactly when the post exists and the update modifies it |
| Posts.ReactTwice | src/pages/api/routes/posts.js:104-111 | repeating a successful like or unlike gives 404 and changes nothing |
| Posts.ReactThenUndo | src/pages/api/routes/posts.js:100-104 | unliking right after a like restores the posts |
| Posts.React | src/pages/api/routes/posts.js:96-112 | the handler, with its `findOne` after the update, returns `ReactStep`'s result |
| Posts.CommentToggled | src/pages/api/routes/posts.js:120-127 | only the matched post changes, and in it only the `likes` of its first comment with the id, which become the toggled list |
| Posts.CommentToggledKeepsIds | src/pages/api/routes/posts.js:120-127 | the update changes only the matched post and keeps every post id and comment id |
| Posts.CommentLikeStep | src/pages/api/routes/posts.js:116-141 | "Post or comment not found" exactly when no post with the id has the comment, with no change |
| Posts.CommentLikeReply | src/pages/api/routes/posts.js:129-138 | when the matched post is the first with its id, the reply is the updated comment |
| Posts.CommentLikeTwice | src/pages/api/routes/posts.js:120-138 | a repeated comment like answers 200 again and changes nothing more |
| Posts.LikeComment | src/pages/api/routes/posts.js:116-142 | the handler returns `CommentLikeStep`'s result; its "Post not found" branch is proved unreachable, since the update keeps the matched post's id |
| Posts.CommentAddStep | src/pages/api/routes/posts.js:76-91 | 201 exactly when a post has the id, with the comment appended to the first such post; otherwise 404 and no change |
| Posts.CommentDeleteStep | src/pages/api/routes/posts.js:181-193 | an unmodified post gives 404 and no change; success gives 200 |
| Posts.CommentDeleteRemoves | src/pages/api/routes/posts.js:184-193 | a delete succeeds exactly when the post has a comment with the id; it removes every such comment and keeps the rest |
| Posts.CommentAddThenDelete | src/pages/api/routes/posts.js:82-193 | deleting a just-added comment with a fresh id restores the posts |
| Posts.AddComment | src/pages/api/routes/posts.js:76-92 | the handler returns `CommentAddStep`'s result |
| Posts.DeleteComment | src/pages/api/routes/posts.js:181-194 | the handler returns `CommentDeleteStep`'s result |
| Auth.Issued | src/pages/api/routes/auth.js:52-57 | the new code, expiring 5 minutes after issue, is stored last; before it stand exactly the stored codes of other emails |
| Auth.Checked | src/pages/api/routes/auth.js:72-82 | "Invalid code" exactly when no record matches, with no change; otherwise the found record is deleted by `_id`, "Code expired" when it had expired and success exactly when it had not |
| Auth.CheckedRemovesFound | src/pages/api/routes/auth.js:73-81 | with unique ids, a found code's record alone leaves the table, and the reply is "Code expired" exactly when it had expired |
| Auth.IssuedLeavesOneCode | src/pages/api/routes/auth.js:53-57 | after send-code the email has exactly one code, expiring 5 minutes later; other emails keep theirs |
| Auth.IssuedThenChecked | src/pages/api/routes/auth.js:53-82 | a fresh code verifies until it is 5 minutes old and is reported expired afterwards |
| Auth.CheckedIsSingleUse | src/pages/api/routes/auth.js:73-82 | a found code is deleted, expired or not, so the same code never verifies twice |
| Auth.RemovedByIdAt | src/pages/api/routes/auth.js:77-81 | `deleteOne({_id})` removes exactly the record found |
| Auth.IssuedValid | src/pages/api/routes/auth.js:56-57 | send-code keeps at most one code per email and the ids unique |
| Auth.CheckedValid | src/pages/api/routes/auth.js:73-81 | verify-code keeps at most one code per email and the ids unique |
| Auth.TokenGranted | src/pages/api/routes/auth.js:94-105 | the first user with the email, if any, alone gets the token, expiring 15 minutes later; no user with the email changes nothing |
| Auth.PasswordSet | src/pages/api/routes/auth.js:124-127 | the first user with the id, if any, alone gets the hash and loses both token fields |
| Auth.PasswordReset | src/pages/api/routes/auth.js:114-129 | every failure is a 400 with no change; success exactly when both fields are present and the first holder of the token has not expired |
| Auth.PasswordSetAt | src/pages/api/routes/auth.js:124-127 | the update sets the hash and unsets both token fields of that user alone |
| Auth.ResetTokenSingleUse | src/pages/api/routes/auth.js:118-127 | a successful reset clears the token, so a second reset with it fails |
| Auth.GrantedHolder | src/pages/api/routes/auth.js:94-118 | the user found by a newly granted token is the one the email named |
| Auth.GrantedThenReset | src/pages/api/routes/auth.js:90-127 | a granted token resets the password until it is 15 minutes old and is refused afterwards |
| Auth.SendCode | src/pages/api/routes/auth.js:48-60 | 400 without an email; otherwise the email's codes are replaced by the new one |
| Auth.VerifyCode | src/pages/api/routes/auth.js:68-82 | 400 without email or code; otherwise `Checked` |
| Auth.ForgotPassword | src/pages/api/routes/auth.js:90-110 | 400 without an email; otherwise success, with a 15-minute token given to the first user with that email, if any |
| Auth.ResetPassword | src/pages/api/routes/auth.js:114-129 | the handler returns `PasswordReset`'s result and keeps the database invariant |
| Reports.Record | src/pages/api/routes/reports.js:15-22 | the stored report has the five fields of the request and the server's date |
| Reports.Submit | src/pages/api/routes/reports.js:7-26 | 400 and nothing stored exactly when a field is missing; otherwise 201 and exactly one report appended |
| Reports.CreatedAtNotStored | src/pages/api/routes/reports.js:8-22 | the client's `createdAt` is required but does not affect what is stored |

## Left out

- MongoDB I/O, connection handling and the `try`/`catch` answers with 500: each collection is a sequence, and every handler runs as one atomic step.
  - Concurrent handlers are not modelled, for example a count racing a delete in `server.js`.
- Express routing, CORS, body parsing, socket.io transport and server startup: only the outcome of each handler is modelled.
- Email sending, Cloudinary and multer uploads, and JWT (commented out in the source).
  - bcrypt is a parameter: `hash` for the stored hash, and `matches` for the comparison.
- `Math.random`, `crypto.randomBytes` and `new Date()` are parameters: the code, the token and `now`.
- Date parsing: a post's client `createdAt` is taken already parsed, and invalid dates are not modelled.
- The `_id` that POST `/posts` adds to its reply is not modelled. Posts and reports get no generated `_id` in the model.
- Routes outside the modelled core are not modelled:
  - the profile update and its `arrayFilters` cascade;
  - the user-by-username, user-posts, most-followers, most-posts, most-liked and most-retruths queries;
  - post deletion.
- Console logging.
- Case mapping beyond ASCII: `Users.LowerChar` lower-cases `A`–`Z` only.
- Ties in MongoDB sorts are modelled as stable. The order in which `$group` emits its groups is modelled as first appearance. MongoDB fixes neither order.
  - Chat.Oldest, Chat.TrimIsSortedSuffix, Chat.TrimRemovesOldest and Chat.Backlog say which of two messages with the same timestamp is evicted or sent only under the stable rule. Chat.TrimEvictsOldest and Chat.BacklogIsNewestOldestFirst hold for any tie order.
  - Chat.TrimKeepsNewest, Chat.NewestNotEvicted, Chat.TrimOrderedLog and Chat.BacklogOfOrderedLog require strictly increasing timestamps, so no tie arises in them.
  - The feed's order of posts with the same `createdAt`, the ranking's order of equal totals and the order of conversations with the same last timestamp also follow the stable rule.
- Users.Login: the message `"Welcome back @" + username + verified` is modelled with JavaScript's `"true"`/`"false"` spelling. The `followers || []` fallbacks in the reply are omitted, because stored users always have both lists.
- Contributions.Top: the `|| {postCount: 0, commentCount: 0}` fallback is not modelled, because every selected user's username is a key of the map.
- Store.ParseObjectId: only 24-digit hexadecimal strings are accepted. The 12-character form that older `bson` versions also accepted is not modelled.
- An absent field of a request body is modelled as the empty string. That is exact where the source only tests the field for falsiness. Where an absent value reaches a query or a stored document, the driver sends `null`, which the model does not tell apart from `""`:
  - PrivateMessages.Send: a missing `receiverUsername` is looked up as `""`. The source's `findOne({username: undefined})` matches no user, while the model matches a user stored with username `""`, as a white-space-only registration leaves one.
  - Posts.ReactAt: a missing `userId` is stored as `Like("")`, where the source stores `{id: null}`. Posts.CommentToggled does the same for comment likes.
  - Posts.CommentAddStep: missing comment fields are stored as `""`, where the source stores `null`.
  - Follows.FollowerRef: missing follower-reference fields are stored as `""`, where the source stores `null`.
- A comment's `likes` is taken as a list. An absent `likes` in a comment request is not modelled.
- Chat.ChatServer.Disconnect: modelled as written. The handler is registered on the server rather than on a socket, and the model does not claim that it is ever reached.

## Findings

| source | as written | input that shows it | evidently intended | confidence | as-written member | corrected member |
|---|---|---|---|---|---|---|
| src/pages/api/routes/users.js:51-53 | GET `/users` strips password, followers, following, createdAt and verified, and lists every other field, including `resetToken` and `resetTokenExpiresAt` | call POST `/auth/forgot-password` with a registered email, then GET `/users`: that user's entry carries the reset token | the listing hides account secrets, the reset token included, so that only the email's owner can reset the password | not executed | Users.ListingExposesResetToken | Users.SafeListingHidesResetToken |
