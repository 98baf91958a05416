/** The two sqlite tables, their invariants, and the statements the routes
    run on them, as functions on the tables' rows. */
module Tables {
  import opened Http
  import Identity

  /** A row of `users`. `theme_id` and `avatar_id` default to 0 at insert but
      are nullable; `push_token` is NULL until a login supplies one. */
  datatype User = User(
    id: int,
    username: string,
    password: Identity.PasswordHash,
    themeId: Option<int>,
    avatarId: Option<int>,
    pushToken: Option<string>)

  /** A row of `messages`; `createdAt` is in seconds. There is no sender column. */
  datatype Message = Message(
    id: int,
    recipientId: int,
    kind: string,
    content: string,
    gameMode: string,
    burnAfter: int,
    createdAt: int)

  /** `SELECT id,username,theme_id,avatar_id`: the row without its secrets. */
  datatype PublicProfile = PublicProfile(id: int, username: string, themeId: Option<int>, avatarId: Option<int>)

  function Public(u: User): PublicProfile {
    PublicProfile(u.id, u.username, u.themeId, u.avatarId)
  }

  // ---------------------------------------------------------------- users

  /** Rows are never deleted, so AUTOINCREMENT numbers them 1, 2, ...;
      `username` is UNIQUE and was truthy at registration; a stored push
      token was truthy when a login wrote it. */
  ghost predicate UsersValid(users: seq<User>) {
    && (forall i :: 0 <= i < |users| ==> users[i].id == i + 1)
    && (forall i :: 0 <= i < |users| ==> users[i].username != "")
    && (forall i :: 0 <= i < |users| ==> users[i].pushToken != Some(""))
    && (forall i, j :: 0 <= i < j < |users| ==> users[i].username != users[j].username)
  }

  /** `SELECT ... FROM users WHERE username=?` with `db.get`: the first matching
      row. An absent name binds NULL, which matches no row. */
  function FindByUsername(users: seq<User>, name: Option<string>): (k: Option<nat>)
    ensures k.Some? ==> k.value < |users| && name == Some(users[k.value].username)
    ensures k.Some? ==> forall j :: 0 <= j < k.value ==> name != Some(users[j].username)
    ensures k.None? ==> forall j :: 0 <= j < |users| ==> name != Some(users[j].username)
    decreases |users|
  {
    if name.None? || users == [] then None
    else if users[0].username == name.value then Some(0)
    else
      match FindByUsername(users[1..], name)
      case None => None
      case Some(k) => Some(k + 1)
  }

  /** `SELECT ... FROM users WHERE id=?` with `db.get`: the first matching row. */
  function FindById(users: seq<User>, id: int): (k: Option<nat>)
    ensures k.Some? ==> k.value < |users| && users[k.value].id == id
    ensures k.None? ==> forall j :: 0 <= j < |users| ==> users[j].id != id
    decreases |users|
  {
    if users == [] then None
    else if users[0].id == id then Some(0)
    else
      match FindById(users[1..], id)
      case None => None
      case Some(k) => Some(k + 1)
  }

  /** In a valid table the row with id `k` is the k-th row. */
  lemma FindByIdValid(users: seq<User>, id: int)
    requires UsersValid(users)
    ensures FindById(users, id) == if 1 <= id <= |users| then Some(id - 1) else None
  {
    if 1 <= id <= |users| {
      assert users[id - 1].id == id;
    }
  }

  /** Usernames are unique, so the row found for a name is the only one. */
  lemma FindByUsernameUnique(users: seq<User>, i: nat)
    requires UsersValid(users) && i < |users|
    ensures FindByUsername(users, Some(users[i].username)) == Some(i)
  {
  }

  /** `INSERT INTO users (username,password)`: the next id and the defaults. */
  function NewUser(users: seq<User>, username: string, password: Identity.PasswordHash): User {
    User(|users| + 1, username, password, Some(0), Some(0), None)
  }

  /** Registering a new, truthy name keeps the users table valid, and the new
      id is used by no existing row. */
  lemma AddUserValid(users: seq<User>, username: string, password: Identity.PasswordHash)
    requires UsersValid(users) && username != ""
    requires FindByUsername(users, Some(username)).None?
    ensures UsersValid(users + [NewUser(users, username, password)])
    ensures forall u :: u in users ==> u.id != NewUser(users, username, password).id
  {
  }

  /** `UPDATE users SET ... WHERE id=?` applying `change` to the matching rows. */
  function UpdateWhereId(users: seq<User>, id: int, change: User -> User): seq<User> {
    seq(|users|, i requires 0 <= i < |users| => if users[i].id == id then change(users[i]) else users[i])
  }

  /** `UPDATE users SET theme_id=?, avatar_id=? WHERE id=?`; an absent value binds NULL. */
  function SetProfile(users: seq<User>, id: int, themeId: Option<int>, avatarId: Option<int>): seq<User> {
    UpdateWhereId(users, id, (u: User) => u.(themeId := themeId, avatarId := avatarId))
  }

  /** `UPDATE users SET push_token=? WHERE id=?`. */
  function SetPushToken(users: seq<User>, id: int, token: string): seq<User> {
    UpdateWhereId(users, id, (u: User) => u.(pushToken := Some(token)))
  }

  /** A profile update sets the caller's two selectors and nothing else: every
      other row, and every other column of the caller's row, stays as it was. */
  lemma SetProfileEffect(users: seq<User>, id: int, themeId: Option<int>, avatarId: Option<int>)
    ensures var r := SetProfile(users, id, themeId, avatarId);
      && |r| == |users|
      && (forall i :: 0 <= i < |users| && users[i].id != id ==> r[i] == users[i])
      && (forall i :: 0 <= i < |users| && users[i].id == id ==>
            r[i].themeId == themeId && r[i].avatarId == avatarId && r[i].id == id
            && r[i].username == users[i].username && r[i].password == users[i].password
            && r[i].pushToken == users[i].pushToken)
  {
  }

  /** Repeating a profile update changes nothing more. */
  lemma SetProfileIdempotent(users: seq<User>, id: int, themeId: Option<int>, avatarId: Option<int>)
    ensures SetProfile(SetProfile(users, id, themeId, avatarId), id, themeId, avatarId)
         == SetProfile(users, id, themeId, avatarId)
  {
  }

  lemma SetProfileValid(users: seq<User>, id: int, themeId: Option<int>, avatarId: Option<int>)
    requires UsersValid(users)
    ensures UsersValid(SetProfile(users, id, themeId, avatarId))
  {
  }

  /** The login-time token refresh touches only the push token of that user. */
  lemma SetPushTokenEffect(users: seq<User>, id: int, token: string)
    requires UsersValid(users) && token != ""
    ensures var r := SetPushToken(users, id, token);
      && UsersValid(r)
      && |r| == |users|
      && (forall i :: 0 <= i < |users| && users[i].id != id ==> r[i] == users[i])
      && (forall i :: 0 <= i < |users| && users[i].id == id ==> r[i] == users[i].(pushToken := Some(token)))
  {
  }

  // ------------------------------------------------------------- messages

  /** Stored order is insertion order and AUTOINCREMENT ids grow with it. */
  ghost predicate IdsIncreasing(msgs: seq<Message>) {
    forall i, j :: 0 <= i < j < |msgs| ==> msgs[i].id < msgs[j].id
  }

  /** Every id is positive and at most the table's sequence counter `lastId`,
      which never decreases, so an id is never issued twice. */
  ghost predicate MessagesValid(msgs: seq<Message>, lastId: int) {
    && IdsIncreasing(msgs)
    && (forall i :: 0 <= i < |msgs| ==> 1 <= msgs[i].id <= lastId)
  }

  /** Ids strictly decrease along the sequence. */
  ghost predicate NewestFirst(rows: seq<Message>) {
    forall i, j :: 0 <= i < j < |rows| ==> rows[i].id > rows[j].id
  }

  /** Appending a row with the next id keeps the table valid. */
  lemma AppendValid(msgs: seq<Message>, lastId: int, m: Message)
    requires MessagesValid(msgs, lastId) && lastId >= 0 && m.id == lastId + 1
    ensures MessagesValid(msgs + [m], lastId + 1)
    ensures forall x :: x in msgs ==> x.id < m.id
  {
  }

  /** `SELECT * FROM messages WHERE recipient_id=? ORDER BY id DESC`, read off
      a table stored in ascending id order. */
  function InboxOf(msgs: seq<Message>, uid: int): seq<Message>
    decreases |msgs|
  {
    if msgs == [] then []
    else
      var last := msgs[|msgs| - 1];
      (if last.recipientId == uid then [last] else []) + InboxOf(msgs[..|msgs| - 1], uid)
  }

  /** The inbox holds exactly the caller's messages. */
  lemma {:induction false} InboxMembers(msgs: seq<Message>, uid: int)
    ensures forall m :: m in InboxOf(msgs, uid) <==> m in msgs && m.recipientId == uid
    decreases |msgs|
  {
    if msgs != [] {
      var init := msgs[..|msgs| - 1];
      InboxMembers(init, uid);
      assert msgs == init + [msgs[|msgs| - 1]];
    }
  }

  /** The inbox is newest first: ids strictly decrease along it. */
  lemma {:induction false} InboxDescending(msgs: seq<Message>, uid: int)
    requires IdsIncreasing(msgs)
    ensures NewestFirst(InboxOf(msgs, uid))
    decreases |msgs|
  {
    if msgs != [] {
      var init := msgs[..|msgs| - 1];
      var last := msgs[|msgs| - 1];
      assert IdsIncreasing(init);
      InboxDescending(init, uid);
      InboxMembers(init, uid);
      var rest := InboxOf(init, uid);
      forall m | m in rest
        ensures m.id < last.id
      {
        var k :| 0 <= k < |init| && init[k] == m;
        assert msgs[k] == m;
      }
      if last.recipientId == uid {
        var r := InboxOf(msgs, uid);
        assert r == [last] + rest;
        forall i, j | 0 <= i < j < |r|
          ensures r[i].id > r[j].id
        {
          assert r[j] == rest[j - 1];
          assert rest[j - 1] in rest;
          if i > 0 {
            assert r[i] == rest[i - 1];
          }
        }
      } else {
        assert InboxOf(msgs, uid) == rest;
      }
    }
  }

  /** `burn_after` is stored but not enforced: a message past its burn time
      is still listed. */
  lemma InboxIgnoresBurnAfter(msgs: seq<Message>, uid: int, m: Message, nowSeconds: int)
    requires m in msgs && m.recipientId == uid
    requires m.burnAfter > 0 && nowSeconds - m.createdAt > m.burnAfter
    ensures m in InboxOf(msgs, uid)
  {
    InboxMembers(msgs, uid);
  }

  /** The row `DELETE FROM messages WHERE id=? AND recipient_id=?` matches;
      an absent message id binds NULL and matches nothing. */
  predicate Targeted(m: Message, messageId: Option<int>, owner: int) {
    messageId == Some(m.id) && m.recipientId == owner
  }

  function DeleteOwned(msgs: seq<Message>, messageId: Option<int>, owner: int): seq<Message>
    decreases |msgs|
  {
    if msgs == [] then []
    else
      (if Targeted(msgs[0], messageId, owner) then [] else [msgs[0]])
      + DeleteOwned(msgs[1..], messageId, owner)
  }

  /** A delete removes exactly the matching rows: every message of another
      recipient, and every other message of the owner, survives. */
  lemma {:induction false} DeleteOwnedMembers(msgs: seq<Message>, messageId: Option<int>, owner: int)
    ensures forall m :: m in DeleteOwned(msgs, messageId, owner) <==> m in msgs && !Targeted(m, messageId, owner)
    ensures forall m :: m in msgs && m.recipientId != owner ==> m in DeleteOwned(msgs, messageId, owner)
    decreases |msgs|
  {
    if msgs != [] {
      DeleteOwnedMembers(msgs[1..], messageId, owner);
      assert msgs == [msgs[0]] + msgs[1..];
    }
  }

  /** A delete keeps the stored order, so the table stays valid. */
  lemma {:induction false} DeleteOwnedValid(msgs: seq<Message>, messageId: Option<int>, owner: int, lastId: int)
    requires MessagesValid(msgs, lastId)
    ensures MessagesValid(DeleteOwned(msgs, messageId, owner), lastId)
  {
    DeleteOwnedIncreasing(msgs, messageId, owner);
    DeleteOwnedMembers(msgs, messageId, owner);
    var r := DeleteOwned(msgs, messageId, owner);
    forall i | 0 <= i < |r|
      ensures 1 <= r[i].id <= lastId
    {
      assert r[i] in msgs;
    }
  }

  lemma {:induction false} DeleteOwnedIncreasing(msgs: seq<Message>, messageId: Option<int>, owner: int)
    requires IdsIncreasing(msgs)
    ensures IdsIncreasing(DeleteOwned(msgs, messageId, owner))
    decreases |msgs|
  {
    if msgs != [] {
      var tail := msgs[1..];
      assert IdsIncreasing(tail) by {
        forall i, j | 0 <= i < j < |tail|
          ensures tail[i].id < tail[j].id
        {
          assert tail[i] == msgs[i + 1] && tail[j] == msgs[j + 1];
        }
      }
      DeleteOwnedIncreasing(tail, messageId, owner);
      var rest := DeleteOwned(tail, messageId, owner);
      if !Targeted(msgs[0], messageId, owner) {
        assert forall k :: 0 <= k < |tail| ==> tail[k] == msgs[k + 1];
        assert forall m :: m in tail ==> msgs[0].id < m.id;
        DeleteOwnedMembers(tail, messageId, owner);
        ConsIncreasing(msgs[0], rest);
        assert DeleteOwned(msgs, messageId, owner) == [msgs[0]] + rest;
      } else {
        assert DeleteOwned(msgs, messageId, owner) == rest;
      }
    }
  }

  /** Putting a row with a smaller id in front of an increasing table keeps it increasing. */
  lemma ConsIncreasing(m: Message, rest: seq<Message>)
    requires IdsIncreasing(rest)
    requires forall x :: x in rest ==> m.id < x.id
    ensures IdsIncreasing([m] + rest)
  {
    var r := [m] + rest;
    forall i, j | 0 <= i < j < |r|
      ensures r[i].id < r[j].id
    {
      assert r[j] == rest[j - 1];
      if i > 0 {
        assert r[i] == rest[i - 1];
      }
    }
  }

  /** A delete that matches no row changes nothing: a message id owned by
      someone else leaves the table as it was. */
  lemma {:induction false} DeleteUntargeted(msgs: seq<Message>, messageId: Option<int>, owner: int)
    requires forall m :: m in msgs ==> !Targeted(m, messageId, owner)
    ensures DeleteOwned(msgs, messageId, owner) == msgs
    decreases |msgs|
  {
    if msgs != [] {
      assert msgs[0] in msgs;
      DeleteUntargeted(msgs[1..], messageId, owner);
      assert msgs == [msgs[0]] + msgs[1..];
    }
  }

  /** Ids are unique, so a delete removes at most one row. */
  lemma {:induction false} DeleteAtMostOne(msgs: seq<Message>, messageId: Option<int>, owner: int)
    requires IdsIncreasing(msgs)
    ensures |DeleteOwned(msgs, messageId, owner)| + 1 >= |msgs|
    decreases |msgs|
  {
    if msgs != [] {
      var tail := msgs[1..];
      if Targeted(msgs[0], messageId, owner) {
        forall m | m in tail
          ensures !Targeted(m, messageId, owner)
        {
          var k :| 0 <= k < |tail| && tail[k] == m;
          assert msgs[k + 1] == m;
        }
        DeleteUntargeted(tail, messageId, owner);
      } else {
        DeleteAtMostOne(tail, messageId, owner);
      }
    }
  }

  /** Repeating a delete changes nothing more. */
  lemma {:induction false} DeleteIdempotent(msgs: seq<Message>, messageId: Option<int>, owner: int)
    ensures DeleteOwned(DeleteOwned(msgs, messageId, owner), messageId, owner) == DeleteOwned(msgs, messageId, owner)
    decreases |msgs|
  {
    if msgs != [] {
      var rest := DeleteOwned(msgs[1..], messageId, owner);
      DeleteIdempotent(msgs[1..], messageId, owner);
      if Targeted(msgs[0], messageId, owner) {
        assert DeleteOwned(msgs, messageId, owner) == rest;
      } else {
        var r := [msgs[0]] + rest;
        assert DeleteOwned(msgs, messageId, owner) == r;
        assert r[0] == msgs[0] && r[1..] == rest;
        assert DeleteOwned(r, messageId, owner) == [msgs[0]] + DeleteOwned(rest, messageId, owner);
      }
    }
  }
}
