/** The documents of the MongoDB collections the routers share, the 24-digit
    hexadecimal form of an ObjectId, and the database itself: each collection
    is a sequence of documents in natural (insertion) order, so `findOne` and
    `updateOne` act on the first matching document. */
module Store {
  import opened Sequences

  /** Milliseconds since the epoch (a JavaScript `Date`). */
  type Time = int

  /** The value of a 12-byte ObjectId, read as a big-endian number; MongoDB
      compares ObjectIds in this order. */
  type ObjectId = nat


  /** 16 to the power `n`. */
  function Pow16(n: nat): (r: nat)
    ensures r >= 1
  {
    if n == 0 then 1 else 16 * Pow16(n - 1)
  }

  /** 16^24 = 2^96: one more than the largest 12-byte ObjectId. */
  const ObjectIdLimit: nat := Pow16(24)

  /** The value of one hexadecimal digit, either case. */
  function HexDigitValue(c: char): (r: Option<nat>)
    ensures r.Some? ==> r.value < 16
  {
    if '0' <= c <= '9' then Some(c as int - '0' as int)
    else if 'a' <= c <= 'f' then Some(c as int - 'a' as int + 10)
    else if 'A' <= c <= 'F' then Some(c as int - 'A' as int + 10)
    else None
  }

  /** The value of a string of hexadecimal digits, `None` if any character is not one. */
  function HexValue(s: string): (r: Option<nat>)
    ensures r.Some? ==> r.value < Pow16(|s|)
  {
    if s == [] then Some(0)
    else match (HexValue(s[..|s| - 1]), HexDigitValue(s[|s| - 1]))
      case (Some(high), Some(low)) => Some(16 * high + low)
      case _ => None
  }

  /** The lower-case digit for a value below 16. */
  function HexDigit(d: nat): char
    requires d < 16
  {
    "0123456789abcdef"[d]
  }

  /** The `width` low-order hexadecimal digits of `n`, most significant first. */
  function HexString(n: nat, width: nat): (r: string)
    ensures |r| == width
  {
    if width == 0 then "" else HexString(n / 16, width - 1) + [HexDigit(n % 16)]
  }

  /** `ObjectId.isValid(s)` followed by `new ObjectId(s)`: a string names an
      ObjectId exactly when it is 24 hexadecimal digits. */
  function ParseObjectId(s: string): (r: Option<ObjectId>)
    ensures r.Some? ==> |s| == 24 && r.value < ObjectIdLimit
    ensures |s| != 24 ==> r.None?
  {
    if |s| == 24 then HexValue(s) else None
  }

  /** `id.toString()`: 24 lower-case hexadecimal digits. */
  function ObjectIdString(id: ObjectId): string {
    HexString(id, 24)
  }

  lemma {:induction false} HexRoundTrip(n: nat, width: nat)
    requires n < Pow16(width)
    ensures HexValue(HexString(n, width)) == Some(n)
  {
    if width > 0 {
      HexRoundTrip(n / 16, width - 1);
      HexDigitRoundTrip(n % 16);
      InitOfSnoc(HexString(n / 16, width - 1), HexDigit(n % 16));
    }
  }

  lemma HexDigitRoundTrip(d: nat)
    requires d < 16
    ensures HexDigitValue(HexDigit(d)) == Some(d)
  {
    if d < 10 { assert "0123456789abcdef"[d] as int == '0' as int + d; }
    else { assert "0123456789abcdef"[d] as int == 'a' as int + d - 10; }
  }

  /** Every ObjectId printed by `toString()` parses back to itself. */
  lemma ObjectIdStringRoundTrip(id: ObjectId)
    requires id < ObjectIdLimit
    ensures ParseObjectId(ObjectIdString(id)) == Some(id)
  {
    HexRoundTrip(id, 24);
  }

  /** An entry of a user's `followers` or `following` list. */
  datatype FollowRef = FollowRef(id: string, name: string, username: string, imageURL: string)

  datatype User = User(
    id: ObjectId,
    email: string,
    password: string,          // bcrypt hash
    name: string,
    username: string,
    imageURL: string,
    createdAt: Time,
    followers: seq<FollowRef>,
    following: seq<FollowRef>,
    verified: bool,
    resetToken: Option<string>,
    resetTokenExpiresAt: Option<Time>)

  /** An entry `{id: userId}` of a post's or comment's `likes` or a post's `retruths`. */
  datatype Like = Like(id: string)

  datatype Comment = Comment(
    id: string, name: string, username: string, imageURL: string,
    text: string, createdAt: string, likes: seq<Like>)

  datatype Post = Post(
    id: string, name: string, username: string, text: string,
    images: seq<string>, imageURL: Option<string>, createdAt: Time,
    likes: seq<Like>, retruths: seq<Like>, comments: seq<Comment>)

  datatype PrivateMessage = PrivateMessage(
    id: ObjectId, senderId: ObjectId, receiverId: ObjectId, content: string, createdAt: Time)

  datatype Report = Report(
    reportType: string, message: string, name: string, username: string, email: string, date: Time)

  datatype CodeRecord = CodeRecord(id: ObjectId, email: string, code: string, expiresAt: Time)

  function UserKey(u: User): int { u.id }
  function CodeEmail(c: CodeRecord): string { c.email }
  function MessageKey(m: PrivateMessage): int { m.id }
  function CodeKey(c: CodeRecord): int { c.id }

  /** Query filters used with `findOne` and `updateOne`. */
  function HasUsername(name: string): User -> bool { (u: User) => u.username == name }
  function HasEmail(email: string): User -> bool { (u: User) => u.email == email }
  function HasId(id: ObjectId): User -> bool { (u: User) => u.id == id }

  /** The outcome of a request handler: the HTTP status and either the JSON
      body of a success or the message of an error. */
  datatype Reply<T> = Ok(status: nat, body: T) | Err(status: nat, message: string)

  /** The collections of one MongoDB database, plus the generator of fresh ObjectIds. */
  class Database {
    var users: seq<User>
    var posts: seq<Post>
    var comments: seq<Comment>
    var privateMessages: seq<PrivateMessage>
    var reports: seq<Report>
    var verificationCodes: seq<CodeRecord>
    var nextId: ObjectId

    /** Every `_id` is below the generator and ids grow in insertion order
        (so `_id` is unique within each collection); `/send-code` keeps at
        most one verification code per email. */
    ghost predicate Valid()
      reads this
    {
      && StrictlyIncreasing(users, UserKey) && (forall i :: 0 <= i < |users| ==> users[i].id < nextId)
      && StrictlyIncreasing(privateMessages, MessageKey)
      && (forall i :: 0 <= i < |privateMessages| ==> privateMessages[i].id < nextId)
      && StrictlyIncreasing(verificationCodes, CodeKey)
      && (forall i :: 0 <= i < |verificationCodes| ==> verificationCodes[i].id < nextId)
      && DistinctKeys(verificationCodes, CodeEmail)
    }

    constructor ()
      ensures Valid()
      ensures users == [] && posts == [] && comments == [] && privateMessages == []
      ensures reports == [] && verificationCodes == []
    {
      users, posts, comments, privateMessages := [], [], [], [];
      reports, verificationCodes, nextId := [], [], 0;
    }

    /** `updateOne` on the user at index `i`: the document is replaced by
        `u`, which keeps its `_id`. */
    method SetUser(i: nat, u: User)
      requires Valid() && i < |users| && u.id == users[i].id
      modifies this`users
      ensures Valid()
      ensures users == old(users)[i := u]
    {
      UpdateIncreasing(users, i, u, UserKey);
      users := users[i := u];
    }
  }
}
