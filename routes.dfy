/** The route handlers of the API server, each as one atomic step of a
    `Server` object that owns the two tables, the messages table's
    AUTOINCREMENT counter and the `/send` rate limiter. */
module Routes {
  import opened Http
  import opened Identity
  import opened Tables
  import RateLimit
  import Upload
  import Push
  import JsNumber

  /** `res.json({ id: this.lastID, username, token })`. */
  datatype Registered = Registered(id: int, username: string, token: Token)

  /** `res.json({ ...user, password: undefined, token })`: the row as read
      before the push-token update, without its password. */
  datatype LoggedIn = LoggedIn(
    id: int,
    username: string,
    themeId: Option<int>,
    avatarId: Option<int>,
    pushToken: Option<string>,
    token: Token)

  function Reply(u: User, token: Token): LoggedIn {
    LoggedIn(u.id, u.username, u.themeId, u.avatarId, u.pushToken, token)
  }

  /** `finalContent`: the stored file's name when a file came, else the text. */
  function FinalContent(file: Option<string>, content: Option<string>): string {
    if file.Some? then file.value else OrDefault(content, "")
  }

  /** The push step after an insert: look up the recipient's `push_token` and
      call `sendPush` only when it is truthy. */
  function PushFor(users: seq<User>, recipientId: int, kind: string, isPushToken: string -> bool, accepted: bool)
    : (d: Push.Dispatch)
    requires UsersValid(users)
    ensures d != Push.NoPush <==> 1 <= recipientId <= |users| && Truthy(users[recipientId - 1].pushToken)
    ensures d != Push.NoPush ==>
      d == Push.SendPush(users[recipientId - 1].pushToken.value, Push.Body(kind), isPushToken, accepted)
  {
    FindByIdValid(users, recipientId);
    match FindById(users, recipientId)
    case None => Push.NoPush
    case Some(k) =>
      var token := users[k].pushToken;
      if Truthy(token) then Push.SendPush(token.value, Push.Body(kind), isPushToken, accepted)
      else Push.NoPush
  }

  class Server {
    /** `JWT_SECRET`, fixed for the life of the process. */
    const secret: string
    const limiter: RateLimit.SendLimiter
    var users: seq<User>
    var messages: seq<Message>
    /** The messages table's entry in `sqlite_sequence`: the largest id issued. */
    var lastMessageId: nat

    ghost predicate Valid()
      reads this
    {
      UsersValid(users) && MessagesValid(messages, lastMessageId)
    }

    /** A server on an empty database. */
    constructor (secret: string)
      ensures Valid()
      ensures this.secret == secret && fresh(limiter) && limiter.windows == map[]
      ensures users == [] && messages == [] && lastMessageId == 0
    {
      this.secret := secret;
      limiter := new RateLimit.SendLimiter();
      users := [];
      messages := [];
      lastMessageId := 0;
    }

    /** `POST /register`. */
    method Register(username: Option<string>, password: Option<string>, salt: string, nowMs: nat)
      returns (r: Result<Registered>)
      requires Valid()
      modifies this
      ensures Valid()
      ensures messages == old(messages) && lastMessageId == old(lastMessageId)
      ensures !Truthy(username) || !Truthy(password) ==> r == Err(MissingFields) && users == old(users)
      ensures Truthy(username) && Truthy(password) && FindByUsername(old(users), username).Some? ==>
        r == Err(UsernameTaken) && users == old(users)
      ensures Truthy(username) && Truthy(password) && FindByUsername(old(users), username).None? ==>
        && users == old(users) + [NewUser(old(users), username.value, Hash(password.value, salt))]
        && r == Ok(Registered(|old(users)| + 1, username.value, Sign(secret, |old(users)| + 1, nowMs)))
      ensures r.Ok? ==> forall u :: u in old(users) ==> u.id != r.value.id
      ensures r.Ok? ==> r.value.token.id == r.value.id
    {
      if !Truthy(username) || !Truthy(password) {
        return Err(MissingFields);
      }
      if FindByUsername(users, username).Some? {
        return Err(UsernameTaken);
      }
      var row := NewUser(users, username.value, Hash(password.value, salt));
      AddUserValid(users, username.value, Hash(password.value, salt));
      users := users + [row];
      r := Ok(Registered(row.id, row.username, Sign(secret, row.id, nowMs)));
    }

    /** `POST /login`. A found user with no password field makes
        `bcrypt.compare` reject, and the handler never answers. */
    method Login(username: Option<string>, password: Option<string>, pushToken: Option<string>, nowMs: nat)
      returns (r: Result<LoggedIn>)
      requires Valid()
      modifies this
      ensures Valid()
      ensures messages == old(messages) && lastMessageId == old(lastMessageId)
      ensures FindByUsername(old(users), username).None? ==> r == Err(InvalidCredentials) && users == old(users)
      ensures FindByUsername(old(users), username).Some? && password.None? ==>
        r == Err(Unanswered) && users == old(users)
      ensures var k := FindByUsername(old(users), username);
        k.Some? && password.Some? && !Matches(password.value, old(users)[k.value].password) ==>
          r == Err(InvalidCredentials) && users == old(users)
      ensures var k := FindByUsername(old(users), username);
        k.Some? && password.Some? && Matches(password.value, old(users)[k.value].password) ==>
          var u := old(users)[k.value];
          && r == Ok(Reply(u, Sign(secret, u.id, nowMs)))
          && users == if Truthy(pushToken) then SetPushToken(old(users), u.id, pushToken.value) else old(users)
      ensures r.Ok? ==> r.value.token.id == r.value.id
    {
      var k := FindByUsername(users, username);
      if k.None? {
        return Err(InvalidCredentials);
      }
      if password.None? {
        return Err(Unanswered);
      }
      var u := users[k.value];
      if !Matches(password.value, u.password) {
        return Err(InvalidCredentials);
      }
      var token := Sign(secret, u.id, nowMs);
      if Truthy(pushToken) {
        SetPushTokenEffect(users, u.id, pushToken.value);
        users := SetPushToken(users, u.id, pushToken.value);
      }
      r := Ok(Reply(u, token));
    }

    /** `GET /u/:username`: the public columns of the named user. */
    method LookupPublic(username: string) returns (r: Result<PublicProfile>)
      requires Valid()
      ensures r.Err? <==> forall i :: 0 <= i < |users| ==> users[i].username != username
      ensures r.Err? ==> r.failure == UserNotFound
      ensures r.Ok? ==> exists i :: 0 <= i < |users| && users[i].username == username && r.value == Public(users[i])
      ensures r.Ok? ==> r.value.username == username
    {
      var k := FindByUsername(users, Some(username));
      if k.None? {
        return Err(UserNotFound);
      }
      r := Ok(Public(users[k.value]));
    }

    /** `POST /send`: the rate limiter, then multer, then the insert and the
        push. The recipient is not checked, nor the kind against the file, nor
        the sign of `burnAfter`; only an absent recipient fails, on the NOT
        NULL column. The push outcome never reaches the response or the tables. */
    method Send(
      client: string, nowMs: nat, part: Option<Upload.FilePart>,
      recipientId: Option<int>, kind: Option<string>, content: Option<string>,
      gameMode: Option<string>, burnAfter: Option<int>,
      isPushToken: string -> bool, accepted: bool)
      returns (r: Result<Ack>, dispatch: Push.Dispatch)
      requires Valid()
      modifies this, limiter
      ensures Valid()
      ensures users == old(users)
      ensures limiter.windows
           == old(limiter.windows)[client := RateLimit.Next(RateLimit.Lookup(old(limiter.windows), client), nowMs)]
      ensures !RateLimit.Allowed(limiter.windows[client]) ==>
        r == Err(TooManyMessages) && dispatch == Push.NoPush
        && messages == old(messages) && lastMessageId == old(lastMessageId)
      ensures RateLimit.Allowed(limiter.windows[client]) && Upload.Admit(part, nowMs).Err? ==>
        r == Err(Upload.Admit(part, nowMs).failure) && dispatch == Push.NoPush
        && messages == old(messages) && lastMessageId == old(lastMessageId)
      ensures RateLimit.Allowed(limiter.windows[client]) && Upload.Admit(part, nowMs).Ok? && recipientId.None? ==>
        r == Err(StorageError) && dispatch == Push.NoPush
        && messages == old(messages) && lastMessageId == old(lastMessageId)
      ensures RateLimit.Allowed(limiter.windows[client]) && Upload.Admit(part, nowMs).Ok? && recipientId.Some? ==>
        var m := Message(old(lastMessageId) + 1, recipientId.value, OrDefault(kind, "text"),
                         if part.Some? then Upload.StoredName(nowMs) else OrDefault(content, ""),
                         OrDefault(gameMode, "none"), OrDefault(burnAfter, 0), Seconds(nowMs));
        && r == Ok(Success)
        && messages == old(messages) + [m]
        && lastMessageId == old(lastMessageId) + 1
        && (forall x :: x in old(messages) ==> x.id < m.id)
        && dispatch == PushFor(users, m.recipientId, m.kind, isPushToken, accepted)
    {
      var allowed := limiter.Hit(client, nowMs);
      if !allowed {
        return Err(TooManyMessages), Push.NoPush;
      }
      var admitted := Upload.Admit(part, nowMs);
      if admitted.Err? {
        return Err(admitted.failure), Push.NoPush;
      }
      if recipientId.None? {
        return Err(StorageError), Push.NoPush;
      }
      var m := Message(lastMessageId + 1, recipientId.value, OrDefault(kind, "text"),
                       FinalContent(admitted.value, content),
                       OrDefault(gameMode, "none"), OrDefault(burnAfter, 0), Seconds(nowMs));
      Insert(m);
      dispatch := PushFor(users, m.recipientId, m.kind, isPushToken, accepted);
      r := Ok(Success);
    }

    /** `INSERT INTO messages`: the row takes the next AUTOINCREMENT id. */
    method Insert(m: Message)
      requires Valid() && m.id == lastMessageId + 1
      modifies this
      ensures Valid()
      ensures users == old(users)
      ensures messages == old(messages) + [m] && lastMessageId == old(lastMessageId) + 1
      ensures forall x :: x in old(messages) ==> x.id < m.id
    {
      AppendValid(messages, lastMessageId, m);
      messages := messages + [m];
      lastMessageId := lastMessageId + 1;
    }

    /** `GET /messages/:userId`: only the token's own inbox, newest first. */
    method ListMessages(bearer: Option<Token>, nowMs: nat, pathUserId: string) returns (r: Result<seq<Message>>)
      requires Valid()
      ensures var a := Authenticate(secret, bearer, nowMs);
        && (a.Err? ==> r == Err(a.failure))
        && (a.Ok? && JsNumber.ParseInt(pathUserId) != Some(a.value) ==> r == Err(Forbidden))
        && (r.Ok? <==> a.Ok? && JsNumber.ParseInt(pathUserId) == Some(a.value))
        && (r.Ok? ==> forall m :: m in r.value <==> m in messages && m.recipientId == a.value)
      ensures r.Ok? ==> NewestFirst(r.value)
    {
      var a := Authenticate(secret, bearer, nowMs);
      if a.Err? {
        return Err(a.failure);
      }
      if JsNumber.ParseInt(pathUserId) != Some(a.value) {
        return Err(Forbidden);
      }
      InboxMembers(messages, a.value);
      InboxDescending(messages, a.value);
      r := Ok(InboxOf(messages, a.value));
    }

    /** `POST /delete-message`: removes the message only if the caller owns it,
        and answers success either way. */
    method DeleteMessage(bearer: Option<Token>, nowMs: nat, messageId: Option<int>) returns (r: Result<Ack>)
      requires Valid()
      modifies this
      ensures Valid()
      ensures users == old(users) && lastMessageId == old(lastMessageId)
      ensures var a := Authenticate(secret, bearer, nowMs);
        && (a.Err? ==> r == Err(a.failure) && messages == old(messages))
        && (a.Ok? ==> r == Ok(Success) && messages == DeleteOwned(old(messages), messageId, a.value))
    {
      var a := Authenticate(secret, bearer, nowMs);
      if a.Err? {
        return Err(a.failure);
      }
      DeleteOwnedValid(messages, messageId, a.value, lastMessageId);
      messages := DeleteOwned(messages, messageId, a.value);
      r := Ok(Success);
    }

    /** `POST /update-profile`: overwrites the caller's two selectors. */
    method UpdateProfile(bearer: Option<Token>, nowMs: nat, themeId: Option<int>, avatarId: Option<int>)
      returns (r: Result<Ack>)
      requires Valid()
      modifies this
      ensures Valid()
      ensures messages == old(messages) && lastMessageId == old(lastMessageId)
      ensures var a := Authenticate(secret, bearer, nowMs);
        && (a.Err? ==> r == Err(a.failure) && users == old(users))
        && (a.Ok? ==> r == Ok(Success) && users == SetProfile(old(users), a.value, themeId, avatarId))
    {
      var a := Authenticate(secret, bearer, nowMs);
      if a.Err? {
        return Err(a.failure);
      }
      SetProfileValid(users, a.value, themeId, avatarId);
      users := SetProfile(users, a.value, themeId, avatarId);
      r := Ok(Success);
    }
  }
}
