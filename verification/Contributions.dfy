/** GET `/most-contributions`: the posts and the comments are each grouped
    by username with a count, the two groupings are merged into one map by
    two loops, the users named in the map are turned into contributor
    records with `total = postCount + commentCount`, and the five with the
    largest totals are returned, largest first. */
module Contributions {
  import opened Sequences
  import opened Store

  /** One output document of `$group: {_id: "$username", count: {$sum: 1}}`. */
  datatype Group = Group(username: string, count: nat)

  /** The value `contributionsMap` holds for a username. */
  datatype Counts = Counts(postCount: nat, commentCount: nat)

  /** The `username` of each post, and of each comment, in collection order. */
  function Authors(posts: seq<Post>): (r: seq<string>)
    ensures |r| == |posts| && forall i :: 0 <= i < |posts| ==> r[i] == posts[i].username
  {
    seq(|posts|, i requires 0 <= i < |posts| => posts[i].username)
  }

  function Commenters(comments: seq<Comment>): (r: seq<string>)
    ensures |r| == |comments| && forall i :: 0 <= i < |comments| ==> r[i] == comments[i].username
  {
    seq(|comments|, i requires 0 <= i < |comments| => comments[i].username)
  }

  /** The `$group` stage: one document per distinct username, in order of
      first appearance, counting the documents with that username. */
  function GroupByName(names: seq<string>): (r: seq<Group>)
    ensures |r| == |Distinct(names)|
  {
    var d := Distinct(names);
    seq(|d|, i requires 0 <= i < |d| => Group(d[i], multiset(names)[d[i]]))
  }

  /** The usernames of a grouping. */
  function Keys(groups: seq<Group>): set<string> {
    set i | 0 <= i < |groups| :: groups[i].username
  }

  /** The count the last document for `name` carries, 0 if there is none:
      the value a `Map` holds after `set` has been called on each document in turn. */
  function CountOf(groups: seq<Group>, name: string): nat {
    if groups == [] then 0
    else if groups[|groups| - 1].username == name then groups[|groups| - 1].count
    else CountOf(groups[..|groups| - 1], name)
  }

  /** One more document: its key joins the keys, and its count is the latest for its key. */
  lemma GroupSnoc(groups: seq<Group>, i: nat)
    requires i < |groups|
    ensures Keys(groups[..i + 1]) == Keys(groups[..i]) + {groups[i].username}
    ensures forall n :: CountOf(groups[..i + 1], n) ==
              if groups[i].username == n then groups[i].count else CountOf(groups[..i], n)
  {
    var a, b := groups[..i + 1], groups[..i];
    assert a[..|a| - 1] == b;
    assert a[|a| - 1] == groups[i];
    forall n | n in Keys(a) ensures n in Keys(b) + {groups[i].username} {
      var k :| 0 <= k < |a| && a[k].username == n;
      assert k < i ==> b[k] == a[k];
    }
    forall n | n in Keys(b) ensures n in Keys(a) {
      var k :| 0 <= k < |b| && b[k].username == n;
      assert a[k] == b[k];
    }
    assert groups[i].username in Keys(a);
    forall n ensures CountOf(a, n) == if groups[i].username == n then groups[i].count else CountOf(b, n) {
    }
  }

  /** A name that no document carries counts 0. */
  lemma {:induction false} CountOfAbsent(groups: seq<Group>, name: string)
    requires name !in Keys(groups)
    ensures CountOf(groups, name) == 0
  {
    if groups != [] {
      var init := groups[..|groups| - 1];
      assert groups[|groups| - 1].username != name;
      forall k | 0 <= k < |init| ensures init[k].username != name {
        assert init[k] == groups[k];
      }
      CountOfAbsent(init, name);
    }
  }

  /** A name that exactly one document carries counts that document's count. */
  lemma {:induction false} CountOfUnique(groups: seq<Group>, k: nat, name: string)
    requires k < |groups| && groups[k].username == name
    requires forall j :: 0 <= j < |groups| && j != k ==> groups[j].username != name
    ensures CountOf(groups, name) == groups[k].count
  {
    if k < |groups| - 1 {
      var init := groups[..|groups| - 1];
      forall j | 0 <= j < |init| && j != k ensures init[j].username != name {
        assert init[j] == groups[j];
      }
      CountOfUnique(init, k, name);
    }
  }

  /** The grouping has a document exactly for each username that occurs,
      and it counts that username's occurrences. */
  lemma GroupByNameCounts(names: seq<string>, name: string)
    ensures name in Keys(GroupByName(names)) <==> name in names
    ensures CountOf(GroupByName(names), name) == multiset(names)[name]
  {
    var d := Distinct(names);
    var g := GroupByName(names);
    if name in names {
      var k :| 0 <= k < |d| && d[k] == name;
      assert g[k].username == name;
      forall j | 0 <= j < |g| && j != k ensures g[j].username != name {
        assert g[j].username == d[j];
      }
      CountOfUnique(g, k, name);
    } else {
      forall k | 0 <= k < |g| ensures g[k].username != name {
        assert g[k].username == d[k];
      }
      CountOfAbsent(g, name);
    }
  }

  /** The two `forEach` loops filling `contributionsMap`: every username of
      either grouping gets one entry, a count it lacks is 0. */
  method Merge(postGroups: seq<Group>, commentGroups: seq<Group>) returns (m: map<string, Counts>)
    ensures m.Keys == Keys(postGroups) + Keys(commentGroups)
    ensures forall n :: n in m ==> m[n] == Counts(CountOf(postGroups, n), CountOf(commentGroups, n))
  {
    m := map[];
    for i := 0 to |postGroups|
      invariant m.Keys == Keys(postGroups[..i])
      invariant forall n :: n in m ==> m[n] == Counts(CountOf(postGroups[..i], n), 0)
    {
      GroupSnoc(postGroups, i);
      m := m[postGroups[i].username := Counts(postGroups[i].count, 0)];
    }
    assert postGroups[..|postGroups|] == postGroups;
    for i := 0 to |commentGroups|
      invariant m.Keys == Keys(postGroups) + Keys(commentGroups[..i])
      invariant forall n :: n in m ==> m[n] == Counts(CountOf(postGroups, n), CountOf(commentGroups[..i], n))
    {
      GroupSnoc(commentGroups, i);
      var name := commentGroups[i].username;
      if name in m {
        m := m[name := m[name].(commentCount := commentGroups[i].count)];
      } else {
        CountOfAbsent(postGroups, name);
        m := m[name := Counts(0, commentGroups[i].count)];
      }
    }
    assert commentGroups[..|commentGroups|] == commentGroups;
  }

  /** What the map is meant to hold: for each username with a post or a
      comment, its number of posts and its number of comments. */
  function Contributions(posts: seq<Post>, comments: seq<Comment>): (m: map<string, Counts>)
    ensures forall n :: n in m <==> n in Authors(posts) || n in Commenters(comments)
  {
    map n | n in Authors(posts) + Commenters(comments) ::
      Counts(multiset(Authors(posts))[n], multiset(Commenters(comments))[n])
  }

  /** Merging the two groupings builds exactly `Contributions`. */
  lemma MergedContributions(posts: seq<Post>, comments: seq<Comment>, m: map<string, Counts>)
    requires m.Keys == Keys(GroupByName(Authors(posts))) + Keys(GroupByName(Commenters(comments)))
    requires forall n :: n in m ==>
               m[n] == Counts(CountOf(GroupByName(Authors(posts)), n), CountOf(GroupByName(Commenters(comments)), n))
    ensures m == Contributions(posts, comments)
  {
    var a, b := Authors(posts), Commenters(comments);
    var c := Contributions(posts, comments);
    forall n ensures (n in m <==> n in c) && (n in m ==> m[n] == c[n]) {
      GroupByNameCounts(a, n);
      GroupByNameCounts(b, n);
    }
    assert m.Keys == c.Keys;
  }

  /** One element of the result. */
  datatype Contributor = Contributor(
    id: ObjectId, name: string, username: string, imageURL: string, verified: bool,
    postCount: nat, commentCount: nat, total: nat)

  /** `find({username: {$in: keys}})` followed by the `map`: a user named in
      the map becomes a contributor, any other user is not selected. */
  function ContributorOf(m: map<string, Counts>): User -> Option<Contributor> {
    (u: User) =>
      if u.username in m then
        var c := m[u.username];
        Some(Contributor(u.id, u.name, u.username, u.imageURL, u.verified,
                         c.postCount, c.commentCount, c.postCount + c.commentCount))
      else None
  }

  function NegTotal(c: Contributor): int { -(c.total as int) }

  /** `.slice(0, 5)`. */
  const Limit: nat := 5

  /** `.sort((a, b) => b.total - a.total).slice(0, 5)` over the selected users. */
  function Top(users: seq<User>, m: map<string, Counts>): (r: seq<Contributor>)
    ensures var n := |FilterMap(users, ContributorOf(m))|;
            |r| == if n <= Limit then n else Limit
  {
    var ranked := SortBy(FilterMap(users, ContributorOf(m)), NegTotal);
    if |ranked| <= Limit then ranked else ranked[..Limit]
  }

  /** Every listed contributor is a user named in the map, with that
      user's counts and their sum. */
  lemma TopSound(users: seq<User>, m: map<string, Counts>, c: Contributor) returns (i: nat)
    requires c in Top(users, m)
    ensures i < |users| && users[i].username in m
    ensures c.id == users[i].id && c.username == users[i].username && c.verified == users[i].verified
    ensures c.postCount == m[c.username].postCount && c.commentCount == m[c.username].commentCount
    ensures c.total == c.postCount + c.commentCount
  {
    var selected := FilterMap(users, ContributorOf(m));
    var ranked := SortBy(selected, NegTotal);
    SortByPermutes(selected, NegTotal);
    assert c in ranked;
    assert c in multiset(selected);
    i := FilterMapSource(users, ContributorOf(m), c);
  }

  /** The result is ordered by total, largest first. */
  lemma TopRanked(users: seq<User>, m: map<string, Counts>)
    ensures var r := Top(users, m);
            forall a, b :: 0 <= a < b < |r| ==> r[a].total >= r[b].total
  {
    var ranked := SortBy(FilterMap(users, ContributorOf(m)), NegTotal);
    SortByOrders(FilterMap(users, ContributorOf(m)), NegTotal);
    var r := Top(users, m);
    forall a, b | 0 <= a < b < |r| ensures r[a].total >= r[b].total {
      assert r[a] == ranked[a] && r[b] == ranked[b];
      assert NegTotal(ranked[a]) <= NegTotal(ranked[b]);
    }
  }

  /** A user named in the map who is left out of the result has a total no
      larger than that of anyone listed. */
  lemma TopIsBest(users: seq<User>, m: map<string, Counts>, i: nat, c: Contributor)
    requires i < |users| && users[i].username in m
    requires c in Top(users, m) && ContributorOf(m)(users[i]).value !in Top(users, m)
    ensures ContributorOf(m)(users[i]).value.total <= c.total
  {
    var x := ContributorOf(m)(users[i]).value;
    var selected := FilterMap(users, ContributorOf(m));
    var ranked := SortBy(selected, NegTotal);
    FilterMapKeeps(users, ContributorOf(m), i);
    SortByPermutes(selected, NegTotal);
    assert x in multiset(ranked);
    SortByOrders(selected, NegTotal);
    var k := if |ranked| <= Limit then |ranked| else Limit;
    assert ranked[..k] == Top(users, m);
    SortedPrefixDominates(ranked, k, NegTotal, c, x);
  }

  /** The result is drawn from the selected users' contributors, each at
      most as often as it is selected: the slice is a prefix of the sorted
      selection. */
  lemma TopDrawnFromSelected(users: seq<User>, m: map<string, Counts>)
    ensures multiset(Top(users, m)) <= multiset(FilterMap(users, ContributorOf(m)))
  {
    var selected := FilterMap(users, ContributorOf(m));
    var ranked := SortBy(selected, NegTotal);
    SortByPermutes(selected, NegTotal);
    if |ranked| > Limit {
      assert ranked == ranked[..Limit] + ranked[Limit..];
      assert multiset(ranked) == multiset(ranked[..Limit]) + multiset(ranked[Limit..]);
    }
  }

  /** When at most `Limit` users are named in the map, every one of them is listed. */
  lemma TopListsAllWhenFew(users: seq<User>, m: map<string, Counts>, i: nat)
    requires |FilterMap(users, ContributorOf(m))| <= Limit
    requires i < |users| && users[i].username in m
    ensures ContributorOf(m)(users[i]).value in Top(users, m)
  {
    var selected := FilterMap(users, ContributorOf(m));
    FilterMapKeeps(users, ContributorOf(m), i);
    SortByPermutes(selected, NegTotal);
    assert ContributorOf(m)(users[i]).value in multiset(SortBy(selected, NegTotal));
  }

  /** The handler: both groupings, the merge, then the ranking. */
  method MostContributions(db: Database) returns (r: seq<Contributor>)
    ensures r == Top(db.users, Contributions(db.posts, db.comments))
  {
    var postGroups := GroupByName(Authors(db.posts));
    var commentGroups := GroupByName(Commenters(db.comments));
    var m := Merge(postGroups, commentGroups);
    MergedContributions(db.posts, db.comments, m);
    r := Top(db.users, m);
  }

  /** Every listed contributor's counts are its numbers of posts and of
      comments, and at least one of them is not 0. */
  lemma ContributorCounts(users: seq<User>, posts: seq<Post>, comments: seq<Comment>, c: Contributor)
    requires c in Top(users, Contributions(posts, comments))
    ensures c.postCount == multiset(Authors(posts))[c.username]
    ensures c.commentCount == multiset(Commenters(comments))[c.username]
    ensures c.total == c.postCount + c.commentCount && c.total > 0
  {
    var i := TopSound(users, Contributions(posts, comments), c);
    var n := c.username;
    assert n in Authors(posts) || n in Commenters(comments);
    assert n in multiset(Authors(posts)) || n in multiset(Commenters(comments));
  }
}
