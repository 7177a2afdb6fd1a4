/** The account rules of the users router: registration stores a user under
    a trimmed, lower-cased email and username, both of which must be new;
    login looks the email up exactly as typed and answers every failed
    credential check with the same reply; the listing of all users strips a
    fixed set of fields from each document. */
module Users {
  import opened Sequences
  import opened Store
  import opened Auth

  /** `String.prototype.trim`'s white space: the ECMAScript WhiteSpace and
      LineTerminator code points. */
  predicate IsSpace(c: char) {
    var n := c as int;
    n == 0x09 || n == 0x0A || n == 0x0B || n == 0x0C || n == 0x0D || n == 0x20 ||
    n == 0xA0 || n == 0x1680 || (0x2000 <= n <= 0x200A) || n == 0x2028 || n == 0x2029 ||
    n == 0x202F || n == 0x205F || n == 0x3000 || n == 0xFEFF
  }

  /** Drops the leading white space. */
  function TrimStart(s: string): (r: string)
    ensures |r| <= |s| && r == s[|s| - |r|..]
    ensures r == [] || !IsSpace(r[0])
    ensures forall k :: 0 <= k < |s| - |r| ==> IsSpace(s[k])
  {
    if s != [] && IsSpace(s[0]) then TrimStart(s[1..]) else s
  }

  /** Drops the trailing white space. */
  function TrimEnd(s: string): (r: string)
    ensures |r| <= |s| && r == s[..|r|]
    ensures r == [] || !IsSpace(r[|r| - 1])
    ensures forall k :: |r| <= k < |s| ==> IsSpace(s[k])
  {
    if s != [] && IsSpace(s[|s| - 1]) then TrimEnd(s[..|s| - 1]) else s
  }

  function Trim(s: string): string {
    TrimEnd(TrimStart(s))
  }

  /** `toLowerCase` on one character, for the ASCII letters. */
  function LowerChar(c: char): (d: char)
    ensures IsSpace(d) == IsSpace(c)
  {
    if 'A' <= c <= 'Z' then (c as int + 32) as char else c
  }

  function ToLower(s: string): (r: string)
    ensures |r| == |s| && forall i :: 0 <= i < |s| ==> r[i] == LowerChar(s[i])
  {
    seq(|s|, i requires 0 <= i < |s| => LowerChar(s[i]))
  }

  /** `s.trim().toLowerCase()`, the form in which emails and usernames are stored. */
  function Normalize(s: string): (r: string)
    ensures |r| <= |s|
    ensures r == [] || (!IsSpace(r[0]) && !IsSpace(r[|r| - 1]))
    ensures forall i :: 0 <= i < |r| ==> !('A' <= r[i] <= 'Z')
  {
    ToLower(Trim(s))
  }

  /** A string that neither starts nor ends with white space is its own trim. */
  lemma TrimmedFixed(s: string)
    requires s == [] || (!IsSpace(s[0]) && !IsSpace(s[|s| - 1]))
    ensures Trim(s) == s
  {
    var t := TrimStart(s);
    assert |s| - |t| > 0 ==> IsSpace(s[0]);
    assert t == s;
  }

  /** Normalizing a stored email or username again changes nothing, so the
      uniqueness checks of `/register` compare like with like. */
  lemma NormalizeIdempotent(s: string)
    ensures Normalize(Normalize(s)) == Normalize(s)
  {
    var n := Normalize(s);
    TrimmedFixed(n);
    assert ToLower(n) == n;
  }

  /** Every character is `trim` white space. */
  predicate AllSpace(s: string) {
    forall i :: 0 <= i < |s| ==> IsSpace(s[i])
  }

  /** `t` and `s` differ at most in the case of A-Z letters. */
  predicate SameUpToCase(t: string, s: string) {
    |t| == |s| && forall i :: 0 <= i < |s| ==> LowerChar(t[i]) == LowerChar(s[i])
  }

  /** Leading white space does not change `TrimStart`. */
  lemma {:induction false} TrimStartSpaces(pre: string, x: string)
    requires AllSpace(pre)
    ensures TrimStart(pre + x) == TrimStart(x)
  {
    if pre != [] {
      assert (pre + x)[0] == pre[0];
      assert (pre + x)[1..] == pre[1..] + x;
      TrimStartSpaces(pre[1..], x);
    } else {
      assert pre + x == x;
    }
  }

  /** Trailing white space does not change `TrimEnd`. */
  lemma {:induction false} TrimEndSpaces(x: string, post: string)
    requires AllSpace(post)
    ensures TrimEnd(x + post) == TrimEnd(x)
  {
    if post != [] {
      var xs := x + post;
      assert xs[|xs| - 1] == post[|post| - 1] && IsSpace(xs[|xs| - 1]);
      assert TrimEnd(xs) == TrimEnd(xs[..|xs| - 1]);
      assert xs[..|xs| - 1] == x + post[..|post| - 1];
      TrimEndSpaces(x, post[..|post| - 1]);
    } else {
      assert x + post == x;
    }
  }

  /** White space around a string with none at its ends is exactly what `trim` drops. */
  lemma TrimAround(pre: string, t: string, post: string)
    requires AllSpace(pre) && AllSpace(post)
    requires t == [] || (!IsSpace(t[0]) && !IsSpace(t[|t| - 1]))
    ensures Trim(pre + t + post) == t
  {
    assert pre + t + post == pre + (t + post);
    TrimStartSpaces(pre, t + post);
    if t == [] {
      assert t + post == post + [];
      TrimStartSpaces(post, []);
    } else {
      assert TrimStart(t + post) == t + post;
      TrimEndSpaces(t, post);
      assert TrimEnd(t) == t;
    }
  }

  /** Strings that differ only in letter case lower-case alike and have
      white space at the same ends. */
  lemma SameUpToCaseLower(t: string, s: string)
    requires SameUpToCase(t, s)
    ensures ToLower(t) == ToLower(s)
    ensures s != [] ==> IsSpace(t[0]) == IsSpace(s[0]) && IsSpace(t[|t| - 1]) == IsSpace(s[|s| - 1])
  {
    if s != [] {
      assert LowerChar(t[0]) == LowerChar(s[0]);
      assert LowerChar(t[|t| - 1]) == LowerChar(s[|s| - 1]);
    }
  }

  /** A string typed with extra white space around it and with any of its
      letters in upper case is stored exactly as the string itself is:
      lower-cased, with nothing around it. */
  lemma NormalizeVariant(pre: string, t: string, post: string, s: string)
    requires AllSpace(pre) && AllSpace(post) && SameUpToCase(t, s)
    requires s == [] || (!IsSpace(s[0]) && !IsSpace(s[|s| - 1]))
    ensures Normalize(pre + t + post) == Normalize(s) == ToLower(s)
  {
    TrimmedFixed(s);
    SameUpToCaseLower(t, s);
    TrimAround(pre, t, post);
  }

  /** The JSON body of POST `/register`; an absent field is the empty string. */
  datatype Registration = Registration(email: string, password: string, name: string, username: string)

  predicate Filled(req: Registration) {
    req.email != "" && req.password != "" && req.name != "" && req.username != ""
  }

  const DefaultImageURL: string := "https://upload.wikimedia.org/wikipedia/commons/a/ac/Default_pfp.jpg"

  predicate EmailTaken(users: seq<User>, email: string) {
    exists k :: 0 <= k < |users| && users[k].email == email
  }

  predicate UsernameTaken(users: seq<User>, username: string) {
    exists k :: 0 <= k < |users| && users[k].username == username
  }

  /** The document `/register` inserts; `hash` is the bcrypt hash of the password. */
  function NewUser(req: Registration, id: ObjectId, hash: string, now: Time): (u: User)
    ensures u.id == id && u.email == Normalize(req.email) && u.username == Normalize(req.username)
    ensures u.name == req.name && u.password == hash && u.createdAt == now
    ensures u.imageURL == DefaultImageURL && u.followers == [] && u.following == [] && !u.verified
    ensures u.resetToken.None? && u.resetTokenExpiresAt.None?
  {
    User(id, Normalize(req.email), hash, req.name, Normalize(req.username), DefaultImageURL,
         now, [], [], false, None, None)
  }

  /** POST `/register`: returns the reply and the new users collection. The
      fields are checked for presence before they are trimmed. */
  function Register(users: seq<User>, req: Registration, id: ObjectId, hash: string, now: Time)
    : (r: (Reply<string>, seq<User>))
    ensures r.0.Err? ==> r.1 == users
    ensures !Filled(req) ==> r.0 == Err(400, "All fields are required.")
    ensures Filled(req) && EmailTaken(users, Normalize(req.email)) ==>
              r.0 == Err(409, "This email already exists.")
    ensures Filled(req) && !EmailTaken(users, Normalize(req.email)) && UsernameTaken(users, Normalize(req.username)) ==>
              r.0 == Err(409, "This username is already in use.")
    ensures r.0.Ok? <==>
              Filled(req) && !EmailTaken(users, Normalize(req.email)) && !UsernameTaken(users, Normalize(req.username))
    ensures r.0.Ok? ==> r.0 == Ok(201, "Successfully registered as @" + Normalize(req.username))
                        && r.1 == users + [NewUser(req, id, hash, now)]
  {
    if !Filled(req) then (Err(400, "All fields are required."), users)
    else
      var username := Normalize(req.username);
      var email := Normalize(req.email);
      if Find(users, HasEmail(email)).Some? then (Err(409, "This email already exists."), users)
      else if Find(users, HasUsername(username)).Some? then (Err(409, "This username is already in use."), users)
      else (Ok(201, "Successfully registered as @" + username), users + [NewUser(req, id, hash, now)])
  }

  function UserEmail(u: User): string { u.email }
  function UserName(u: User): string { u.username }

  /** Registration keeps emails unique and usernames unique. */
  lemma RegisterKeepsUnique(users: seq<User>, req: Registration, id: ObjectId, hash: string, now: Time)
    requires DistinctKeys(users, UserEmail) && DistinctKeys(users, UserName)
    ensures DistinctKeys(Register(users, req, id, hash, now).1, UserEmail)
    ensures DistinctKeys(Register(users, req, id, hash, now).1, UserName)
  {
    var r := Register(users, req, id, hash, now);
    if r.0.Ok? {
      var u := NewUser(req, id, hash, now);
      forall k | 0 <= k < |users| ensures UserEmail(users[k]) != UserEmail(u) && UserName(users[k]) != UserName(u) {
        assert !EmailTaken(users, u.email) && !UsernameTaken(users, u.username);
      }
      SnocDistinct(users, u, UserEmail);
      SnocDistinct(users, u, UserName);
    }
  }

  /** Every stored email and username is in normalized form. */
  predicate AllNormalized(users: seq<User>) {
    forall k :: 0 <= k < |users| ==>
      Normalize(users[k].email) == users[k].email && Normalize(users[k].username) == users[k].username
  }

  lemma RegisterKeepsNormalized(users: seq<User>, req: Registration, id: ObjectId, hash: string, now: Time)
    requires AllNormalized(users)
    ensures AllNormalized(Register(users, req, id, hash, now).1)
  {
    var r := Register(users, req, id, hash, now);
    if r.0.Ok? {
      var u := NewUser(req, id, hash, now);
      NormalizeIdempotent(req.email);
      NormalizeIdempotent(req.username);
      forall k | 0 <= k < |r.1|
        ensures Normalize(r.1[k].email) == r.1[k].email && Normalize(r.1[k].username) == r.1[k].username
      {
        if k < |users| { assert r.1[k] == users[k]; } else { assert r.1[k] == u; }
      }
    }
  }

  /** A second registration whose email or username is stored in the same
      form as the first one's is refused. */
  lemma RegisterRejectsSameForm(users: seq<User>, req: Registration, id: ObjectId, hash: string, now: Time,
                                again: Registration, id2: ObjectId, hash2: string, later: Time)
    requires Register(users, req, id, hash, now).0.Ok? && Filled(again)
    ensures Normalize(again.email) == Normalize(req.email) ==>
              Register(Register(users, req, id, hash, now).1, again, id2, hash2, later).0
              == Err(409, "This email already exists.")
    ensures Normalize(again.username) == Normalize(req.username) ==>
              var r := Register(Register(users, req, id, hash, now).1, again, id2, hash2, later).0;
              r.Err? && r.status == 409
  {
    var after := Register(users, req, id, hash, now).1;
    assert after[|users|] == NewUser(req, id, hash, now);
    if Normalize(again.email) == Normalize(req.email) {
      assert EmailTaken(after, Normalize(again.email));
    }
    if Normalize(again.username) == Normalize(req.username) {
      assert UsernameTaken(after, Normalize(again.username));
    }
  }

  /** Once a registration succeeds, another one whose email or username is
      the stored one typed with extra white space around it or with letters
      in upper case is refused with a 409. */
  lemma RegisterRejectsVariant(users: seq<User>, req: Registration, id: ObjectId, hash: string, now: Time,
                               again: Registration, id2: ObjectId, hash2: string, later: Time,
                               pre: string, t: string, post: string)
    requires Register(users, req, id, hash, now).0.Ok? && Filled(again) && AllSpace(pre) && AllSpace(post)
    ensures again.email == pre + t + post && SameUpToCase(t, Normalize(req.email)) ==>
              Register(Register(users, req, id, hash, now).1, again, id2, hash2, later).0
              == Err(409, "This email already exists.")
    ensures again.username == pre + t + post && SameUpToCase(t, Normalize(req.username)) ==>
              var r := Register(Register(users, req, id, hash, now).1, again, id2, hash2, later).0;
              r.Err? && r.status == 409
  {
    RegisterRejectsSameForm(users, req, id, hash, now, again, id2, hash2, later);
    if again.email == pre + t + post && SameUpToCase(t, Normalize(req.email)) {
      NormalizeVariant(pre, t, post, Normalize(req.email));
      NormalizeIdempotent(req.email);
    }
    if again.username == pre + t + post && SameUpToCase(t, Normalize(req.username)) {
      NormalizeVariant(pre, t, post, Normalize(req.username));
      NormalizeIdempotent(req.username);
    }
  }

  /** The `user` object of a successful login. */
  datatype Profile = Profile(
    id: ObjectId, name: string, username: string, email: string, imageURL: string,
    createdAt: Time, followers: seq<FollowRef>, following: seq<FollowRef>, verified: bool)

  datatype Welcome = Welcome(message: string, user: Profile)

  /** JavaScript's string form of a boolean. */
  function BoolString(b: bool): string { if b then "true" else "false" }

  function WelcomeOf(u: User): Welcome {
    Welcome("Welcome back @" + u.username + BoolString(u.verified),
            Profile(u.id, u.name, u.username, u.email, u.imageURL, u.createdAt, u.followers, u.following, u.verified))
  }

  /** POST `/login`. The email is looked up exactly as typed; `matches` is
      `bcrypt.compare` of a password against a stored hash. */
  function Login(users: seq<User>, email: string, password: string, matches: (string, string) -> bool)
    : (r: Reply<Welcome>)
    ensures email == "" || password == "" ==> r == Err(400, "Email and password are required.")
    ensures email != "" && password != "" && r.Err? ==> r == Err(401, "Invalid credentials.")
    ensures email != "" && password != "" ==>
      var first := FirstIndex(users, HasEmail(email));
      && (r.Ok? <==> first.Some? && matches(password, users[first.value].password))
      && (r.Ok? ==> r == Ok(200, WelcomeOf(users[first.value])))
    ensures email != "" && password != "" && !EmailTaken(users, email) ==> r.Err?
  {
    if email == "" || password == "" then Err(400, "Email and password are required.")
    else match FirstIndex(users, HasEmail(email))
      case None => Err(401, "Invalid credentials.")
      case Some(i) =>
        if !matches(password, users[i].password) then Err(401, "Invalid credentials.")
        else Ok(200, WelcomeOf(users[i]))
  }

  /** A wrong password gets the very reply an unknown email gets. */
  lemma LoginUniformFailure(users: seq<User>, stranger: string, email: string, password: string,
                            matches: (string, string) -> bool, i: nat)
    requires stranger != "" && email != "" && password != "" && !EmailTaken(users, stranger)
    requires i < |users| && users[i].email == email && !matches(password, users[i].password)
    requires forall k :: 0 <= k < i ==> users[k].email != email
    ensures Login(users, email, password, matches) == Login(users, stranger, password, matches)
  {
    assert FirstIndex(users, HasEmail(email)) == Some(i) by {
      var f := FirstIndex(users, HasEmail(email));
      assert f.Some?;
      assert f.value <= i && f.value >= i;
    }
  }

  /** A freshly registered user can log in with the normalized email and the
      password whose hash was stored. */
  lemma RegisterThenLogin(users: seq<User>, req: Registration, id: ObjectId, hash: string, now: Time,
                          matches: (string, string) -> bool)
    requires Register(users, req, id, hash, now).0.Ok? && matches(req.password, hash)
    ensures Normalize(req.email) != "" ==>
      Login(Register(users, req, id, hash, now).1, Normalize(req.email), req.password, matches)
      == Ok(200, WelcomeOf(NewUser(req, id, hash, now)))
    ensures Normalize(req.email) == "" ==>
      Login(Register(users, req, id, hash, now).1, Normalize(req.email), req.password, matches).Err?
  {
    var u := NewUser(req, id, hash, now);
    assert !EmailTaken(users, u.email);
    FindLast(users, u, HasEmail(u.email));
  }

  /** Login does not normalize: when every stored email is normalized, an
      email typed with upper-case letters or surrounding white space fails. */
  lemma LoginNeedsStoredForm(users: seq<User>, email: string, password: string, matches: (string, string) -> bool)
    requires AllNormalized(users) && password != "" && email != Normalize(email)
    ensures Login(users, email, password, matches).Err?
  {
    if email != "" {
      forall k | 0 <= k < |users| ensures users[k].email != email {
        assert Normalize(users[k].email) == users[k].email;
      }
    }
  }

  /** One element of the GET `/` listing: the document without `password`,
      `followers`, `following`, `createdAt` and `verified`. The remaining
      fields are `_id`, `email`, `name`, `username`, `imageURL` and, once
      `/forgot-password` has set them, `resetToken` and `resetTokenExpiresAt`. */
  datatype Listed = Listed(
    id: ObjectId, email: string, name: string, username: string, imageURL: string,
    resetToken: Option<string>, resetTokenExpiresAt: Option<Time>)

  function ListedOf(u: User): Listed {
    Listed(u.id, u.email, u.name, u.username, u.imageURL, u.resetToken, u.resetTokenExpiresAt)
  }

  /** GET `/`, as written. */
  function ListUsers(users: seq<User>): (r: seq<Listed>)
    ensures |r| == |users|
    ensures forall i :: 0 <= i < |r| ==>
              r[i].id == users[i].id && r[i].email == users[i].email && r[i].name == users[i].name &&
              r[i].username == users[i].username && r[i].imageURL == users[i].imageURL &&
              r[i].resetToken == users[i].resetToken && r[i].resetTokenExpiresAt == users[i].resetTokenExpiresAt
  {
    seq(|users|, i requires 0 <= i < |users| => ListedOf(users[i]))
  }

  /** The listing hands out the reset token `/forgot-password` has just
      granted: whoever reads it can then use `/reset-password` on that account. */
  lemma ListingExposesResetToken(users: seq<User>, email: string, token: string, now: Time) returns (i: nat)
    requires EmailTaken(users, email)
    ensures i < |users| && users[i].email == email
    ensures var granted := TokenGranted(users, email, token, now);
            |ListUsers(granted)| == |users| && ListUsers(granted)[i].resetToken == Some(token)
  {
    i := FirstIndex(users, HasEmail(email)).value;
  }

  /** An element of the listing that leaves out the reset-token fields too. */
  datatype PublicUser = PublicUser(id: ObjectId, email: string, name: string, username: string, imageURL: string)

  function PublicUserOf(u: User): PublicUser {
    PublicUser(u.id, u.email, u.name, u.username, u.imageURL)
  }

  /** GET `/` as its exclusions evidently intend: no secret of an account is listed. */
  function SafeListUsers(users: seq<User>): (r: seq<PublicUser>)
    ensures |r| == |users|
    ensures forall i :: 0 <= i < |r| ==>
              r[i].id == users[i].id && r[i].email == users[i].email && r[i].name == users[i].name &&
              r[i].username == users[i].username && r[i].imageURL == users[i].imageURL
  {
    seq(|users|, i requires 0 <= i < |users| => PublicUserOf(users[i]))
  }

  /** Granting a reset token leaves the safe listing exactly as it was, so
      nothing in it helps anyone but the mailbox owner to use the token. */
  lemma SafeListingHidesResetToken(users: seq<User>, email: string, token: string, now: Time)
    ensures SafeListUsers(TokenGranted(users, email, token, now)) == SafeListUsers(users)
  {
    var granted := TokenGranted(users, email, token, now);
    assert |granted| == |users|;
    forall k | 0 <= k < |users| ensures PublicUserOf(granted[k]) == PublicUserOf(users[k]) {
    }
    EqualPointwise(SafeListUsers(granted), SafeListUsers(users));
  }
}
