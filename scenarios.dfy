/** Sequences of requests against one `Server`, checked from the routes'
    contracts alone. */
module Scenarios {
  import opened Http
  import opened Identity
  import opened Tables
  import opened Routes
  import JsNumber
  import Push
  import RateLimit
  import Upload

  /** Registering a fresh name and later logging in with the same password
      (however long after) yields a credential that authenticates as the new
      user for thirty days from the login. */
  method RegisterThenLogin(s: Server, name: string, password: string, salt: string, t0: nat, t1: nat, t2: nat)
    returns (reg: Result<Registered>, login: Result<LoggedIn>)
    requires s.Valid()
    requires name != "" && password != ""
    requires FindByUsername(s.users, Some(name)).None?
    requires Seconds(t2) < Seconds(t1) + TokenLifetime
    modifies s
    ensures s.Valid()
    ensures reg.Ok? && login.Ok? && login.value.id == reg.value.id
    ensures Authenticate(s.secret, Some(login.value.token), t2) == Ok(reg.value.id)
  {
    reg := s.Register(Some(name), Some(password), salt, t0);
    var n := |s.users| - 1;
    assert s.users[n].username == name;
    FindByUsernameUnique(s.users, n);
    HashMatches(password, salt, password);
    login := s.Login(Some(name), Some(password), None, t1);
    SignedAuthenticates(s.secret, login.value.id, t1, t2);
  }

  /** A second registration of a taken name fails whatever the password. */
  method RegisterTwice(s: Server, name: string, pw1: string, pw2: string, salt: string, now: nat)
    returns (second: Result<Registered>)
    requires s.Valid() && name != "" && pw1 != "" && pw2 != ""
    modifies s
    ensures s.Valid()
    ensures second == Err(UsernameTaken)
  {
    var first := s.Register(Some(name), Some(pw1), salt, now);
    var n :| 0 <= n < |s.users| && s.users[n].username == name;
    FindByUsernameUnique(s.users, n);
    second := s.Register(Some(name), Some(pw2), salt, now);
  }

  /** One user's attempt to delete another user's message answers success and
      leaves the message in its owner's inbox. */
  method DeleteOthersMessage(s: Server, bearer: Token, now: nat, m: Message)
    returns (r: Result<Ack>)
    requires s.Valid() && m in s.messages
    requires Authenticate(s.secret, Some(bearer), now).Ok?
    requires Authenticate(s.secret, Some(bearer), now).value != m.recipientId
    modifies s
    ensures r == Ok(Success)
    ensures m in s.messages
  {
    r := s.DeleteMessage(Some(bearer), now, Some(m.id));
    DeleteOwnedMembers(old(s.messages), Some(m.id), bearer.id);
  }

  /** A message to an id no user has is stored all the same and answered
      with success; no push is attempted. */
  method SendToUnknownRecipient(s: Server, client: string, now: nat, recipientId: int, text: string)
    returns (r: Result<Ack>, dispatch: Push.Dispatch)
    requires s.Valid()
    requires FindById(s.users, recipientId).None?
    requires RateLimit.Allowed(RateLimit.Next(RateLimit.Lookup(s.limiter.windows, client), now))
    modifies s, s.limiter
    ensures r == Ok(Success) && dispatch == Push.NoPush
    ensures |s.messages| == |old(s.messages)| + 1 && s.messages[|s.messages| - 1].recipientId == recipientId
  {
    r, dispatch := s.Send(client, now, None, Some(recipientId), None, Some(text), None, None,
                          (tok: string) => true, true);
  }

  /** A text message to a recipient whose push token passes the format check
      is acknowledged and, when the provider accepts it, notifies that token
      with "Secret message" under the fixed title. */
  method SendTextNotifies(s: Server, client: string, now: nat, recipientId: int, kind: Option<string>, text: string,
                          isPushToken: string -> bool)
    returns (r: Result<Ack>, dispatch: Push.Dispatch)
    requires s.Valid()
    requires RateLimit.Allowed(RateLimit.Next(RateLimit.Lookup(s.limiter.windows, client), now))
    requires kind == None || kind == Some("text")
    requires 1 <= recipientId <= |s.users| && Truthy(s.users[recipientId - 1].pushToken)
    requires isPushToken(s.users[recipientId - 1].pushToken.value)
    modifies s, s.limiter
    ensures s.users == old(s.users) && r == Ok(Success)
    ensures dispatch.Delivered? && dispatch.note.body == "Secret message" && dispatch.note.title == Push.Title
    ensures dispatch.note.to == s.users[recipientId - 1].pushToken.value
  {
    r, dispatch := s.Send(client, now, None, Some(recipientId), kind, Some(text), None, None, isPushToken, true);
  }

  /** A voice note (kind "audio" with an `audio/mpeg` file) to such a
      recipient is stored under its file name and notifies with "Voice note". */
  method SendAudioNotifies(s: Server, client: string, now: nat, recipientId: int, size: nat,
                           isPushToken: string -> bool)
    returns (r: Result<Ack>, dispatch: Push.Dispatch)
    requires s.Valid()
    requires RateLimit.Allowed(RateLimit.Next(RateLimit.Lookup(s.limiter.windows, client), now))
    requires size <= Upload.MaxFileSize
    requires 1 <= recipientId <= |s.users| && Truthy(s.users[recipientId - 1].pushToken)
    requires isPushToken(s.users[recipientId - 1].pushToken.value)
    modifies s, s.limiter
    ensures s.users == old(s.users) && r == Ok(Success)
    ensures |s.messages| == |old(s.messages)| + 1 && s.messages[|s.messages| - 1].content == Upload.StoredName(now)
    ensures dispatch.Delivered? && dispatch.note.body == "Voice note"
    ensures dispatch.note.to == s.users[recipientId - 1].pushToken.value
  {
    Upload.FilterExamples();
    var part := Upload.FilePart(Upload.AudioField, "audio/mpeg", size);
    r, dispatch := s.Send(client, now, Some(part), Some(recipientId), Some("audio"), None, None, None,
                          isPushToken, true);
  }

  /** alice registers on a fresh server, logs in and is looked up. */
  method AliceJoins(t: nat) returns (s: Server, token: Token)
    ensures fresh(s) && fresh(s.limiter) && s.Valid()
    ensures s.secret == "change-me" && s.limiter.windows == map[]
    ensures |s.users| == 1 && s.users[0].username == "alice" && s.users[0].id == 1 && s.users[0].pushToken == None
    ensures s.messages == [] && s.lastMessageId == 0
    ensures token == Sign("change-me", 1, t)
  {
    s := new Server("change-me");
    var reg := s.Register(Some("alice"), Some("pw1"), "salt", t);
    assert reg == Ok(Registered(1, "alice", Sign("change-me", 1, t)));
    HashMatches("pw1", "salt", "pw1");
    var login := s.Login(Some("alice"), Some("pw1"), None, t);
    assert login.Ok? && login.value.id == 1;
    token := login.value.token;
    var profile := s.LookupPublic("alice");
    assert s.users[0].username == "alice";
    assert profile == Ok(PublicProfile(1, "alice", Some(0), Some(0)));
  }

  /** Register alice, log in, look her up, send her "hi" and read her inbox. */
  method Alice() {
    var t: nat := 1_700_000_000_000;
    var s, token := AliceJoins(t);
    var sent, dispatch := s.Send("203.0.113.7", t, None, Some(1), Some("text"), Some("hi"), None, Some(0),
                                 (tok: string) => true, true);
    assert sent == Ok(Success);
    assert dispatch == Push.NoPush;
    SignedAuthenticates("change-me", 1, t, t);
    JsNumber.ParseDecimal(1);
    var inbox := s.ListMessages(Some(token), t, JsNumber.Decimal(1));
    assert s.messages == [Message(1, 1, "text", "hi", "none", 0, Seconds(t))];
    assert inbox.Ok?;
    assert s.messages[0] in inbox.value;
    assert forall x :: x in inbox.value ==> x.content == "hi" && x.recipientId == 1;
    assert inbox.value == [s.messages[0]] by {
      forall i | 0 <= i < |inbox.value|
        ensures inbox.value[i] == s.messages[0]
      {
        assert inbox.value[i] in inbox.value;
      }
      assert |inbox.value| > 1 ==> inbox.value[0].id > inbox.value[1].id;
    }
  }
}
