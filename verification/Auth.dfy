/** The auth router as operations on the database's verification-code table
    and on the reset-token fields of its users. A verification code is issued
    per email, replacing any earlier one, and is consumed by its first check;
    a reset token is granted to the first user with the email and is cleared
    when the password is reset. The random code, the random token, the bcrypt
    hash of the new password and the clock are parameters. */
module Auth {
  import opened Sequences
  import opened Store

  /** A verification code is valid for 5 minutes after issue. */
  const CodeLifetime: int := 5 * 60 * 1000

  /** A reset token is valid for 15 minutes after it is granted. */
  const ResetTokenLifetime: int := 15 * 60 * 1000

  function ForEmail(email: string): CodeRecord -> bool {
    (c: CodeRecord) => c.email == email
  }

  function OtherEmail(email: string): CodeRecord -> bool {
    (c: CodeRecord) => c.email != email
  }

  /** The query `{email, code}` of `/verify-code`. */
  function MatchesCode(email: string, code: string): CodeRecord -> bool {
    (c: CodeRecord) => c.email == email && c.code == code
  }

  function HasCodeId(id: ObjectId): CodeRecord -> bool {
    (c: CodeRecord) => c.id == id
  }

  // ---------------------------------------------------------------------------
  // The code table

  /** The table after `/send-code`: every code of the email deleted, then the
      new code appended under `id`. */
  function Issued(codes: seq<CodeRecord>, email: string, code: string, id: ObjectId, now: Time): (r: seq<CodeRecord>)
    ensures |r| > 0 && r[|r| - 1] == CodeRecord(id, email, code, now + CodeLifetime)
    ensures forall c :: c in r[..|r| - 1] <==> c in codes && c.email != email
  {
    var kept := Filter(codes, OtherEmail(email));
    FilterMembers(codes, OtherEmail(email));
    assert (kept + [CodeRecord(id, email, code, now + CodeLifetime)])[..|kept|] == kept;
    kept + [CodeRecord(id, email, code, now + CodeLifetime)]
  }

  /** `/verify-code` once both fields are present: the reply and the new table. */
  function Checked(codes: seq<CodeRecord>, email: string, code: string, now: Time): (r: (Reply<()>, seq<CodeRecord>))
    ensures r.0 == Err(400, "Invalid code") <==> Find(codes, MatchesCode(email, code)).None?
    ensures r.0 == Err(400, "Invalid code") ==> r.1 == codes
    ensures r.0.Ok? <==>
      Find(codes, MatchesCode(email, code)).Some? && now <= Find(codes, MatchesCode(email, code)).value.expiresAt
    ensures var f := Find(codes, MatchesCode(email, code));
      f.Some? ==> && r.1 == RemoveFirst(codes, HasCodeId(f.value.id))
                  && (f.value.expiresAt < now ==> r.0 == Err(400, "Code expired"))
  {
    match Find(codes, MatchesCode(email, code))
    case None => (Err(400, "Invalid code"), codes)
    case Some(rec) =>
      var rest := RemoveFirst(codes, HasCodeId(rec.id));
      if rec.expiresAt < now then (Err(400, "Code expired"), rest) else (Ok(200, ()), rest)
  }

  /** After `/send-code` the email has exactly one code, the new one, expiring
      5 minutes after issue; every other email keeps its codes. */
  lemma IssuedLeavesOneCode(codes: seq<CodeRecord>, email: string, code: string, id: ObjectId, now: Time)
    ensures Filter(Issued(codes, email, code, id, now), ForEmail(email)) == [CodeRecord(id, email, code, now + CodeLifetime)]
    ensures forall other :: other != email ==>
      Filter(Issued(codes, email, code, id, now), ForEmail(other)) == Filter(codes, ForEmail(other))
  {
    var kept := Filter(codes, OtherEmail(email));
    var newCode := CodeRecord(id, email, code, now + CodeLifetime);
    FilterAppend(kept, newCode, ForEmail(email));
    FilterExcludes(codes, OtherEmail(email), ForEmail(email));
    forall other | other != email
      ensures Filter(Issued(codes, email, code, id, now), ForEmail(other)) == Filter(codes, ForEmail(other))
    {
      FilterAppend(kept, newCode, ForEmail(other));
      FilterNarrows(codes, OtherEmail(email), ForEmail(other));
    }
  }

  /** A freshly issued code verifies until it is 5 minutes old, and is
      reported expired afterwards. */
  lemma IssuedThenChecked(codes: seq<CodeRecord>, email: string, code: string, id: ObjectId, issuedAt: Time, now: Time)
    ensures Checked(Issued(codes, email, code, id, issuedAt), email, code, now).0 ==
      if now <= issuedAt + CodeLifetime then Ok(200, ()) else Err(400, "Code expired")
  {
    var kept := Filter(codes, OtherEmail(email));
    var newCode := CodeRecord(id, email, code, issuedAt + CodeLifetime);
    FilterMembers(codes, OtherEmail(email));
    forall i | 0 <= i < |kept| ensures !MatchesCode(email, code)(kept[i]) {
      assert kept[i] in kept;
    }
    FindLast(kept, newCode, MatchesCode(email, code));
  }

  /** With at most one code per email and unique ids, a check that finds the
      code removes it, expired or not: the same code never verifies twice. */
  lemma CheckedIsSingleUse(codes: seq<CodeRecord>, email: string, code: string, now: Time, later: Time)
    requires DistinctKeys(codes, CodeEmail) && StrictlyIncreasing(codes, CodeKey)
    requires Checked(codes, email, code, now).0 != Err(400, "Invalid code")
    ensures Checked(Checked(codes, email, code, now).1, email, code, later).0 == Err(400, "Invalid code")
  {
    var i := FirstIndex(codes, MatchesCode(email, code)).value;
    var rec := codes[i];
    RemovedByIdAt(codes, i);
    var rest := codes[..i] + codes[i + 1..];
    forall j | 0 <= j < |rest| ensures !MatchesCode(email, code)(rest[j]) {
      var j' := if j < i then j else j + 1;
      assert rest[j] == codes[j'];
      DistinctKeysAt(codes, CodeEmail, if j' < i then j' else i, if j' < i then i else j');
    }
  }

  /** With unique ids, a check that finds a code deletes that record alone,
      and answers "Code expired" exactly when it had expired. */
  lemma CheckedRemovesFound(codes: seq<CodeRecord>, email: string, code: string, now: Time)
    requires StrictlyIncreasing(codes, CodeKey)
    requires FirstIndex(codes, MatchesCode(email, code)).Some?
    ensures var i := FirstIndex(codes, MatchesCode(email, code)).value;
      && Checked(codes, email, code, now).1 == codes[..i] + codes[i + 1..]
      && (Checked(codes, email, code, now).0 == Err(400, "Code expired") <==> codes[i].expiresAt < now)
  {
    var i := FirstIndex(codes, MatchesCode(email, code)).value;
    RemovedByIdAt(codes, i);
  }

  /** Deleting by the `_id` of the element at `i` removes exactly that element. */
  lemma RemovedByIdAt(codes: seq<CodeRecord>, i: nat)
    requires i < |codes| && StrictlyIncreasing(codes, CodeKey)
    ensures RemoveFirst(codes, HasCodeId(codes[i].id)) == codes[..i] + codes[i + 1..]
  {
    RemoveFirstAt(codes, HasCodeId(codes[i].id));
    match FirstIndex(codes, HasCodeId(codes[i].id))
    case Some(k) =>
      assert k == i;
  }

  /** The invariant of the code table survives `/send-code`. */
  lemma IssuedValid(codes: seq<CodeRecord>, email: string, code: string, nextId: ObjectId, now: Time)
    requires StrictlyIncreasing(codes, CodeKey) && DistinctKeys(codes, CodeEmail)
    requires forall i :: 0 <= i < |codes| ==> codes[i].id < nextId
    ensures var r := Issued(codes, email, code, nextId, now);
      && StrictlyIncreasing(r, CodeKey) && DistinctKeys(r, CodeEmail)
      && forall i :: 0 <= i < |r| ==> r[i].id < nextId + 1
  {
    var kept := Filter(codes, OtherEmail(email));
    var newCode := CodeRecord(nextId, email, code, now + CodeLifetime);
    var r := kept + [newCode];
    FilterMembers(codes, OtherEmail(email));
    FilterIncreasing(codes, OtherEmail(email), CodeKey);
    FilterDistinct(codes, OtherEmail(email), CodeEmail);
    forall i | 0 <= i < |kept| ensures kept[i].id < nextId && kept[i].email != email {
      assert kept[i] in codes;
    }
    SnocDistinct(kept, newCode, CodeEmail);
    forall a, b | 0 <= a < b < |r| ensures CodeKey(r[a]) < CodeKey(r[b]) {
      assert r[a] == kept[a];
      if b < |kept| { assert r[b] == kept[b]; }
    }
  }

  /** The invariant of the code table survives `/verify-code`. */
  lemma CheckedValid(codes: seq<CodeRecord>, email: string, code: string, now: Time, nextId: ObjectId)
    requires StrictlyIncreasing(codes, CodeKey) && DistinctKeys(codes, CodeEmail)
    requires forall i :: 0 <= i < |codes| ==> codes[i].id < nextId
    ensures var r := Checked(codes, email, code, now).1;
      && StrictlyIncreasing(r, CodeKey) && DistinctKeys(r, CodeEmail)
      && forall i :: 0 <= i < |r| ==> r[i].id < nextId
  {
    match FirstIndex(codes, MatchesCode(email, code))
    case None =>
    case Some(i) =>
      RemovedByIdAt(codes, i);
      RemoveAtIncreasing(codes, i, CodeKey);
      RemoveAtDistinct(codes, i, CodeEmail);
      var r := codes[..i] + codes[i + 1..];
      forall j | 0 <= j < |r| ensures r[j].id < nextId {
        assert r[j] == codes[if j < i then j else j + 1];
      }
  }

  // ---------------------------------------------------------------------------
  // Reset tokens

  function HoldsToken(token: string): User -> bool {
    (u: User) => u.resetToken == Some(token)
  }

  /** `new Date(user.resetTokenExpiresAt) < new Date()`: an absent expiry
      makes an invalid date, which compares false, so it never expires. */
  predicate Expired(u: User, now: Time) {
    u.resetTokenExpiresAt.Some? && u.resetTokenExpiresAt.value < now
  }

  /** The users after `/forgot-password` for a present email: the first user
      with that email gets the token, expiring 15 minutes later. */
  function TokenGranted(users: seq<User>, email: string, token: string, now: Time): (r: seq<User>)
    ensures |r| == |users|
    ensures FirstIndex(users, HasEmail(email)).None? ==> r == users
    ensures forall j :: 0 <= j < |users| && Some(j) != FirstIndex(users, HasEmail(email)) ==> r[j] == users[j]
    ensures FirstIndex(users, HasEmail(email)).Some? ==>
      var i := FirstIndex(users, HasEmail(email)).value;
      r[i] == users[i].(resetToken := Some(token), resetTokenExpiresAt := Some(now + ResetTokenLifetime))
  {
    match FirstIndex(users, HasEmail(email))
    case None => users
    case Some(i) =>
      users[i := users[i].(resetToken := Some(token), resetTokenExpiresAt := Some(now + ResetTokenLifetime))]
  }

  /** `updateOne({_id}, {$set: {password}, $unset: {resetToken, resetTokenExpiresAt}})`. */
  function PasswordSet(users: seq<User>, id: ObjectId, hash: string): (r: seq<User>)
    ensures |r| == |users|
    ensures FirstIndex(users, HasId(id)).None? ==> r == users
    ensures forall j :: 0 <= j < |users| && Some(j) != FirstIndex(users, HasId(id)) ==> r[j] == users[j]
    ensures FirstIndex(users, HasId(id)).Some? ==>
      var i := FirstIndex(users, HasId(id)).value;
      r[i] == users[i].(password := hash, resetToken := None, resetTokenExpiresAt := None)
  {
    match FirstIndex(users, HasId(id))
    case None => users
    case Some(i) => users[i := users[i].(password := hash, resetToken := None, resetTokenExpiresAt := None)]
  }

  /** `/reset-password`: the reply and the new users. */
  function PasswordReset(users: seq<User>, token: string, password: string, hash: string, now: Time)
    : (r: (Reply<()>, seq<User>))
    ensures r.0.Err? ==> r.0.status == 400 && r.1 == users
    ensures r.0.Ok? <==>
      && token != "" && password != "" && Find(users, HoldsToken(token)).Some?
      && !Expired(Find(users, HoldsToken(token)).value, now)
  {
    if token == "" || password == "" then (Err(400, "Missing token or password"), users)
    else match Find(users, HoldsToken(token))
      case None => (Err(400, "Invalid or expired token"), users)
      case Some(u) =>
        if Expired(u, now) then (Err(400, "Invalid or expired token"), users)
        else (Ok(200, ()), PasswordSet(users, u.id, hash))
  }

  /** Setting the password of the user at `i` by its unique id changes that
      user alone: it gets the hash and loses its token. */
  lemma PasswordSetAt(users: seq<User>, i: nat, hash: string)
    requires i < |users| && StrictlyIncreasing(users, UserKey)
    ensures PasswordSet(users, users[i].id, hash) ==
      users[i := users[i].(password := hash, resetToken := None, resetTokenExpiresAt := None)]
  {
    match FirstIndex(users, HasId(users[i].id))
    case Some(k) =>
      assert k == i;
  }

  /** When a single user holds the token, a successful reset clears it, so a
      second reset with the same token fails. */
  lemma ResetTokenSingleUse(users: seq<User>, token: string, password: string, hash: string, now: Time,
                            password2: string, hash2: string, later: Time)
    requires StrictlyIncreasing(users, UserKey)
    requires forall i, j :: 0 <= i < j < |users| ==> !(HoldsToken(token)(users[i]) && HoldsToken(token)(users[j]))
    requires PasswordReset(users, token, password, hash, now).0.Ok? && password2 != ""
    ensures PasswordReset(PasswordReset(users, token, password, hash, now).1, token, password2, hash2, later).0
      == Err(400, "Invalid or expired token")
  {
    var i := FirstIndex(users, HoldsToken(token)).value;
    PasswordSetAt(users, i, hash);
    var after := PasswordReset(users, token, password, hash, now).1;
    forall j | 0 <= j < |after| ensures !HoldsToken(token)(after[j]) {
      if j < i { assert !HoldsToken(token)(users[j]); }
      if j > i { assert !(HoldsToken(token)(users[i]) && HoldsToken(token)(users[j])); }
    }
  }

  /** After `/forgot-password` grants a token no one held, the user found by
      that token is the one the email named. */
  lemma GrantedHolder(users: seq<User>, email: string, token: string, grantedAt: Time)
    requires forall i :: 0 <= i < |users| ==> !HoldsToken(token)(users[i])
    requires FirstIndex(users, HasEmail(email)).Some?
    ensures var granted := TokenGranted(users, email, token, grantedAt);
      var i := FirstIndex(users, HasEmail(email)).value;
      Find(granted, HoldsToken(token)) == Some(granted[i])
  {
    var i := FirstIndex(users, HasEmail(email)).value;
    var granted := TokenGranted(users, email, token, grantedAt);
    forall j | 0 <= j < i ensures !HoldsToken(token)(granted[j]) {
      assert granted[j] == users[j];
    }
    assert FirstIndex(granted, HoldsToken(token)) == Some(i);
  }

  /** A token granted by `/forgot-password` resets the password until it is 15
      minutes old, and is refused afterwards. */
  lemma GrantedThenReset(users: seq<User>, email: string, token: string, grantedAt: Time,
                         password: string, hash: string, now: Time)
    requires StrictlyIncreasing(users, UserKey)
    requires forall i :: 0 <= i < |users| ==> !HoldsToken(token)(users[i])
    requires FirstIndex(users, HasEmail(email)).Some? && token != "" && password != ""
    ensures var granted := TokenGranted(users, email, token, grantedAt);
      var i := FirstIndex(users, HasEmail(email)).value;
      PasswordReset(granted, token, password, hash, now) ==
        if now <= grantedAt + ResetTokenLifetime then
          (Ok(200, ()), users[i := users[i].(password := hash, resetToken := None, resetTokenExpiresAt := None)])
        else (Err(400, "Invalid or expired token"), granted)
  {
    var i := FirstIndex(users, HasEmail(email)).value;
    var granted := TokenGranted(users, email, token, grantedAt);
    GrantedHolder(users, email, token, grantedAt);
    UpdateIncreasing(users, i, granted[i], UserKey);
    PasswordSetAt(granted, i, hash);
    SetTwice(users, i, granted[i], granted[i].(password := hash, resetToken := None, resetTokenExpiresAt := None));
  }

  // ---------------------------------------------------------------------------
  // The handlers, as steps on the database

  /** POST `/send-code`. */
  method SendCode(db: Database, email: string, code: string, now: Time) returns (r: Reply<()>)
    requires db.Valid()
    modifies db`verificationCodes, db`nextId
    ensures db.Valid()
    ensures email == "" ==> r == Err(400, "Email required") && unchanged(db)
    ensures email != "" ==> && r == Ok(200, ())
                            && db.verificationCodes == Issued(old(db.verificationCodes), email, code, old(db.nextId), now)
                            && db.nextId == old(db.nextId) + 1
  {
    if email == "" {
      return Err(400, "Email required");
    }
    var id := db.nextId;
    IssuedValid(db.verificationCodes, email, code, id, now);
    db.verificationCodes := Filter(db.verificationCodes, OtherEmail(email));
    db.verificationCodes := db.verificationCodes + [CodeRecord(id, email, code, now + CodeLifetime)];
    db.nextId := id + 1;
    r := Ok(200, ());
  }

  /** POST `/verify-code`. */
  method VerifyCode(db: Database, email: string, code: string, now: Time) returns (r: Reply<()>)
    requires db.Valid()
    modifies db`verificationCodes
    ensures db.Valid()
    ensures (email == "" || code == "") ==> r == Err(400, "Email and code required") && unchanged(db)
    ensures email != "" && code != "" ==>
      (r, db.verificationCodes) == Checked(old(db.verificationCodes), email, code, now)
  {
    if email == "" || code == "" {
      return Err(400, "Email and code required");
    }
    CheckedValid(db.verificationCodes, email, code, now, db.nextId);
    var record := Find(db.verificationCodes, MatchesCode(email, code));
    if record.None? {
      return Err(400, "Invalid code");
    }
    db.verificationCodes := RemoveFirst(db.verificationCodes, HasCodeId(record.value.id));
    if record.value.expiresAt < now {
      r := Err(400, "Code expired");
    } else {
      r := Ok(200, ());
    }
  }

  /** POST `/forgot-password`. */
  method ForgotPassword(db: Database, email: string, token: string, now: Time) returns (r: Reply<()>)
    requires db.Valid()
    modifies db`users
    ensures db.Valid()
    ensures email == "" ==> r == Err(400, "Email required") && unchanged(db)
    ensures email != "" ==> r == Ok(200, ()) && db.users == TokenGranted(old(db.users), email, token, now)
  {
    if email == "" {
      return Err(400, "Email required");
    }
    var found := FirstIndex(db.users, HasEmail(email));
    if found.Some? {
      var i := found.value;
      var u := db.users[i].(resetToken := Some(token), resetTokenExpiresAt := Some(now + ResetTokenLifetime));
      UpdateIncreasing(db.users, i, u, UserKey);
      db.users := db.users[i := u];
    }
    r := Ok(200, ());
  }

  /** POST `/reset-password`; `hash` is the bcrypt hash of `password`. */
  method ResetPassword(db: Database, token: string, password: string, hash: string, now: Time) returns (r: Reply<()>)
    requires db.Valid()
    modifies db`users
    ensures db.Valid()
    ensures (r, db.users) == PasswordReset(old(db.users), token, password, hash, now)
  {
    if token == "" || password == "" {
      return Err(400, "Missing token or password");
    }
    var user := Find(db.users, HoldsToken(token));
    if user.None? || Expired(user.value, now) {
      return Err(400, "Invalid or expired token");
    }
    var found := FirstIndex(db.users, HasId(user.value.id));
    if found.Some? {
      var i := found.value;
      var u := db.users[i].(password := hash, resetToken := None, resetTokenExpiresAt := None);
      UpdateIncreasing(db.users, i, u, UserKey);
      db.users := db.users[i := u];
    }
    r := Ok(200, ());
  }
}
